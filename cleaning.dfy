/**
 * The table transformations of `clean_dataframe` (data_engine/cleaner.py), as
 * functions on frame values: header tidying, dropping all-missing rows and
 * columns, dropping duplicate rows, `astype(str).str.strip()` on object
 * columns and the replacement of NA-like strings. The mutable `DataFrame` in
 * module Cleaner is proved to end in exactly these states.
 */
module Cleaning {
  import opened Text
  import opened Seqs
  import opened Frames

  // ---------------------------------------------------------------------------
  // Column names

  /** The header tidying of `clean_dataframe`: strip, then newlines to spaces. */
  function TidyHeader(c: string): (r: string)
    ensures |r| <= |c|
    ensures forall i :: 0 <= i < |r| ==> r[i] != '\n'
  {
    ReplaceChar(Strip(c), '\n', ' ')
  }

  function TidyHeaders(f: Frame): (r: Frame)
    ensures r.kinds == f.kinds && r.rows == f.rows && |r.columns| == |f.columns|
    ensures forall j :: 0 <= j < |f.columns| ==> r.columns[j] == TidyHeader(f.columns[j])
    ensures WellFormed(f) ==> WellFormed(r)
  {
    f.(columns := seq(|f.columns|, j requires 0 <= j < |f.columns| => TidyHeader(f.columns[j])))
  }

  /** A name as `normalize_column_names` leaves it: no whitespace at either
      end, no space, no ASCII capital. */
  predicate IsNormalName(s: string) {
    Stripped(s) && forall i :: 0 <= i < |s| ==> s[i] != ' ' && !('A' <= s[i] <= 'Z')
  }

  /** `col.strip().lower().replace(" ", "_")`. */
  function NormalizeName(c: string): (r: string)
    ensures IsNormalName(r)
    ensures |r| == |Strip(c)| <= |c|
    ensures forall i :: 0 <= i < |r| ==> r[i] == NormalChar(Strip(c)[i])
  {
    var s := Strip(c);
    LowerReplaced(s);
    ReplaceChar(Lower(s), ' ', '_')
  }

  /** `s.lower().replace(" ", "_")` maps each character on its own, and a
      stripped text becomes a normal name. */
  lemma LowerReplaced(s: string)
    ensures var r := ReplaceChar(Lower(s), ' ', '_');
      && |r| == |s| && (forall i :: 0 <= i < |r| ==> r[i] == NormalChar(s[i]))
      && (Stripped(s) ==> IsNormalName(r))
  {
    var r := ReplaceChar(Lower(s), ' ', '_');
    forall i | 0 <= i < |r| ensures r[i] == NormalChar(s[i]) && r[i] != ' ' && !('A' <= r[i] <= 'Z') {
      NormalCharOf(s[i]);
    }
    if |r| > 0 {
      NormalCharOf(s[0]);
      NormalCharOf(s[|s| - 1]);
    }
  }

  /** One character of a normalized name. */
  function NormalChar(x: char): char {
    if x == ' ' then '_' else LowerChar(x)
  }

  /** A normalized character is no space and no capital, and whitespace only
      where the input was. */
  lemma NormalCharOf(x: char)
    ensures NormalChar(x) == if LowerChar(x) == ' ' then '_' else LowerChar(x)
    ensures NormalChar(x) != ' ' && !('A' <= NormalChar(x) <= 'Z')
    ensures IsSpace(NormalChar(x)) ==> IsSpace(x)
  {
  }

  /** A normal name is its own normalization. */
  lemma NormalNameFixed(s: string)
    requires IsNormalName(s)
    ensures NormalizeName(s) == s
  {
    StripStripped(s);
    assert Lower(s) == s;
  }

  /** Normalizing twice is normalizing once. */
  lemma NormalizeNameIdempotent(c: string)
    ensures NormalizeName(NormalizeName(c)) == NormalizeName(c)
  {
    NormalNameFixed(NormalizeName(c));
  }

  /** The list comprehension of `normalize_column_names`: one normal name per
      column, in column order. */
  function NormalizeNames(cols: seq<string>): (r: seq<string>)
    ensures |r| == |cols|
    ensures forall j :: 0 <= j < |r| ==> IsNormalName(r[j]) && |r[j]| <= |cols[j]|
    ensures forall j :: 0 <= j < |cols| ==> r[j] == NormalizeName(cols[j])
  {
    seq(|cols|, j requires 0 <= j < |cols| => NormalizeName(cols[j]))
  }

  /** Normalizing an already normalized header list changes nothing. */
  lemma NormalizeNamesIdempotent(cols: seq<string>)
    ensures NormalizeNames(NormalizeNames(cols)) == NormalizeNames(cols)
  {
    forall j | 0 <= j < |cols| ensures NormalizeName(NormalizeName(cols[j])) == NormalizeName(cols[j]) {
      NormalizeNameIdempotent(cols[j]);
    }
  }

  // ---------------------------------------------------------------------------
  // NA-like strings

  /** The `na_values` of `replace_na_like_values`, matched exactly and
      case-sensitively. */
  const NaTokens: seq<string> := ["", "na", "n/a", "null", "NULL", "NaN", "-", "--"]

  function ReplaceNaCell(c: Cell): Cell {
    if c.Text? && c.s in NaTokens then Missing else c
  }

  /** `df.replace(na_values, np.nan)`: a fresh frame with every NA-like string
      made missing. */
  function ReplaceNaLike(f: Frame): (r: Frame)
    ensures r.columns == f.columns && r.kinds == f.kinds && |r.rows| == |f.rows|
    ensures forall i :: 0 <= i < |f.rows| ==> |r.rows[i]| == |f.rows[i]|
    ensures WellFormed(f) ==> WellFormed(r)
  {
    f.(rows := seq(|f.rows|, i requires 0 <= i < |f.rows| =>
      seq(|f.rows[i]|, k requires 0 <= k < |f.rows[i]| => ReplaceNaCell(f.rows[i][k]))))
  }

  /** A cell ends up missing exactly when it was missing or was one of the
      eight tokens; every other cell is untouched. */
  lemma ReplaceNaLikeExact(f: Frame, i: nat, k: nat)
    requires i < |f.rows| && k < |f.rows[i]|
    ensures var c := f.rows[i][k];
      && (ReplaceNaLike(f).rows[i][k] == Missing <==> c == Missing || (c.Text? && c.s in NaTokens))
      && (ReplaceNaLike(f).rows[i][k] != Missing ==> ReplaceNaLike(f).rows[i][k] == c)
  {
  }

  /** A frame without NA-like strings is left as it is. */
  lemma ReplaceNaLikeIdle(f: Frame)
    requires forall i, k :: 0 <= i < |f.rows| && 0 <= k < |f.rows[i]| ==> ReplaceNaCell(f.rows[i][k]) == f.rows[i][k]
    ensures ReplaceNaLike(f) == f
  {
    forall i | 0 <= i < |f.rows| ensures ReplaceNaLike(f).rows[i] == f.rows[i] {
    }
  }

  /** The match is case-sensitive and exact: other spellings survive, and so
      does the "nan" that `astype(str)` writes for a missing value. */
  lemma NaTokensCaseSensitive()
    ensures ReplaceNaCell(Text("N/A")) == Text("N/A")
    ensures ReplaceNaCell(Text("Null")) == Text("Null")
    ensures ReplaceNaCell(Text("NA")) == Text("NA")
    ensures ReplaceNaCell(Text("nan")) == Text("nan")
    ensures ReplaceNaCell(Text(" ")) == Text(" ")
    ensures ReplaceNaCell(Text("NULL")) == Missing
    ensures ReplaceNaCell(Text("NaN")) == Missing
  {
    assert "N/A" != "n/a" && "Null" != "null" && "NA" != "na" && "nan" != "NaN";
    assert " " != "" && " " != "-";
    assert "NULL" == NaTokens[4] && "NaN" == NaTokens[5];
  }

  // ---------------------------------------------------------------------------
  // Dropping empty rows and columns, and duplicates

  /** A row with at least one non-missing cell. */
  predicate HasValue(row: seq<Cell>) {
    exists k :: 0 <= k < |row| && row[k] != Missing
  }

  /** `dropna(axis=0, how="all")`: keep the rows with a value, in order. */
  function DropEmptyRows(f: Frame): (r: Frame)
    ensures r.columns == f.columns && r.kinds == f.kinds
    ensures |r.rows| <= |f.rows|
    ensures forall row :: row in r.rows <==> row in f.rows && HasValue(row)
    ensures r.rows == Project(f.rows, KeptPositions(f.rows, HasValue))
    ensures WellFormed(f) ==> WellFormed(r)
  {
    FilterKeeps(f.rows, HasValue);
    FilterAtPositions(f.rows, HasValue);
    var r := f.(rows := Filter(f.rows, HasValue));
    assert WellFormed(f) ==> forall i :: 0 <= i < |r.rows| ==> RowFits(r.kinds, r.rows[i]) by {
      if WellFormed(f) {
        forall i | 0 <= i < |r.rows| ensures RowFits(r.kinds, r.rows[i]) {
          assert r.rows[i] in f.rows;
        }
      }
    }
    r
  }

  /** Column `j` has a value in some row. */
  predicate ColumnHasValue(rows: seq<seq<Cell>>, j: nat) {
    exists i :: 0 <= i < |rows| && j < |rows[i]| && rows[i][j] != Missing
  }

  /** The columns below `n` that have a value, in increasing order: exactly
      the columns `dropna(axis=1, how="all")` keeps. */
  function KeptColumns(rows: seq<seq<Cell>>, n: nat): (idx: seq<nat>)
    ensures |idx| <= n && Increasing(idx)
    ensures forall t :: 0 <= t < |idx| ==> idx[t] < n && ColumnHasValue(rows, idx[t])
    ensures forall j :: 0 <= j < n && ColumnHasValue(rows, j) ==> j in idx
  {
    if n == 0 then []
    else
      var init := KeptColumns(rows, n - 1);
      if ColumnHasValue(rows, n - 1) then init + [n - 1] else init
  }

  /** `dropna(axis=1, how="all")`: keep the columns with a value, in order.
      With no rows left every column goes. */
  function DropEmptyColumns(f: Frame): (r: Frame)
    requires WellFormed(f)
    ensures WellFormed(r)
    ensures r.columns == Project(f.columns, KeptColumns(f.rows, |f.columns|))
    ensures r.kinds == Project(f.kinds, KeptColumns(f.rows, |f.columns|))
    ensures |r.rows| == |f.rows|
    ensures forall i :: 0 <= i < |f.rows| ==> r.rows[i] == Project(f.rows[i], KeptColumns(f.rows, |f.columns|))
    ensures forall j :: 0 <= j < |r.columns| ==> ColumnHasValue(r.rows, j)
  {
    var idx := KeptColumns(f.rows, |f.columns|);
    var r := Frame(Project(f.columns, idx), Project(f.kinds, idx),
      seq(|f.rows|, i requires 0 <= i < |f.rows| => Project(f.rows[i], idx)));
    forall j | 0 <= j < |r.columns| ensures ColumnHasValue(r.rows, j) {
      var i :| 0 <= i < |f.rows| && idx[j] < |f.rows[i]| && f.rows[i][idx[j]] != Missing;
      assert r.rows[i][j] == f.rows[i][idx[j]];
    }
    r
  }

  /** `drop_duplicates()`: the first occurrence of every row, in order. */
  function DropDuplicateRows(f: Frame): (r: Frame)
    ensures r.columns == f.columns && r.kinds == f.kinds
    ensures Distinct(r.rows)
    ensures forall row :: row in r.rows <==> row in f.rows
    ensures r.rows == Project(f.rows, FirstPositions(f.rows))
    ensures WellFormed(f) ==> WellFormed(r)
  {
    DedupKeepsFirst(f.rows);
    DedupDistinct(f.rows);
    DedupElements(f.rows);
    var r := f.(rows := Dedup(f.rows));
    assert WellFormed(f) ==> forall i :: 0 <= i < |r.rows| ==> RowFits(r.kinds, r.rows[i]) by {
      if WellFormed(f) {
        forall i | 0 <= i < |r.rows| ensures RowFits(r.kinds, r.rows[i]) {
          assert r.rows[i] in f.rows;
        }
      }
    }
    r
  }

  // ---------------------------------------------------------------------------
  // Column-wise updates, as the `for col in ...` loops perform them

  /** `astype(str).str.strip()` on one cell of a string column: a missing cell
      becomes the string "nan". A number is left as it is (a string column of
      a well-formed frame holds none). */
  function StripCell(c: Cell): (r: Cell)
    ensures !c.Num? ==> r.Text? && Stripped(r.s)
  {
    match c
    case Missing => assert Stripped("nan"); Text("nan")
    case Text(s) => Text(Strip(s))
    case Num(_) => c
  }

  /** What a column loop does to a cell of a column it visits: strip it as a
      string, fill a gap with the value chosen for its column (a missing fill
      value leaves the gap), or fill a gap with one given value (`fillna(v)`). */
  datatype ColumnOp = StripText | FillGaps(fills: seq<Cell>) | FillWith(v: Cell)

  function ApplyOp(op: ColumnOp, k: nat, c: Cell): Cell {
    match op
    case StripText => StripCell(c)
    case FillGaps(fills) => if c == Missing && k < |fills| then fills[k] else c
    case FillWith(v) => if c == Missing then v else c
  }

  /** Apply `op` to every column `k < upTo` that `mask` selects. */
  function MapColumns(rows: seq<seq<Cell>>, mask: seq<bool>, op: ColumnOp, upTo: nat): (r: seq<seq<Cell>>)
    ensures |r| == |rows|
    ensures forall i :: 0 <= i < |rows| ==> |r[i]| == |rows[i]|
  {
    seq(|rows|, i requires 0 <= i < |rows| =>
      seq(|rows[i]|, k requires 0 <= k < |rows[i]| =>
        if k < upTo && k < |mask| && mask[k] then ApplyOp(op, k, rows[i][k]) else rows[i][k]))
  }

  /** Apply `op` to column `j`. */
  function UpdateColumn(rows: seq<seq<Cell>>, j: nat, op: ColumnOp): (r: seq<seq<Cell>>)
    requires forall i :: 0 <= i < |rows| ==> j < |rows[i]|
    ensures |r| == |rows|
    ensures forall i :: 0 <= i < |rows| ==> |r[i]| == |rows[i]|
  {
    seq(|rows|, i requires 0 <= i < |rows| => rows[i][j := ApplyOp(op, j, rows[i][j])])
  }

  /** One more iteration of a column loop: column `j` is updated when the mask
      selects it and left alone otherwise. */
  lemma MapColumnsStep(rows: seq<seq<Cell>>, mask: seq<bool>, op: ColumnOp, j: nat)
    requires forall i :: 0 <= i < |rows| ==> j < |rows[i]|
    requires j < |mask|
    ensures MapColumns(rows, mask, op, j + 1) ==
      if mask[j] then UpdateColumn(MapColumns(rows, mask, op, j), j, op) else MapColumns(rows, mask, op, j)
  {
    var m := MapColumns(rows, mask, op, j);
    var m' := MapColumns(rows, mask, op, j + 1);
    if mask[j] {
      var u := UpdateColumn(m, j, op);
      forall i | 0 <= i < |rows| ensures m'[i] == u[i] {
        assert m[i][j] == rows[i][j];
      }
    } else {
      forall i | 0 <= i < |rows| ensures m'[i] == m[i] {
      }
    }
  }

  /** Before a column loop starts, no column has changed. */
  lemma MapColumnsNone(rows: seq<seq<Cell>>, mask: seq<bool>, op: ColumnOp)
    ensures MapColumns(rows, mask, op, 0) == rows
  {
    forall i | 0 <= i < |rows| ensures MapColumns(rows, mask, op, 0)[i] == rows[i] {
    }
  }

  /** Column `j` of a partly updated table is still the original column when
      the loop has not reached it. */
  lemma MapColumnsUntouched(rows: seq<seq<Cell>>, mask: seq<bool>, op: ColumnOp, j: nat)
    ensures Column(MapColumns(rows, mask, op, j), j) == Column(rows, j)
  {
  }

  /** An update that changes no cell of column `j` leaves the table as it is. */
  lemma UpdateColumnIdle(rows: seq<seq<Cell>>, j: nat, op: ColumnOp)
    requires forall i :: 0 <= i < |rows| ==> j < |rows[i]| && ApplyOp(op, j, rows[i][j]) == rows[i][j]
    ensures UpdateColumn(rows, j, op) == rows
  {
    forall i | 0 <= i < |rows| ensures UpdateColumn(rows, j, op)[i] == rows[i] {
    }
  }

  /** Filling column `j` with its own fill value is filling it with all of them. */
  lemma FillWithGaps(rows: seq<seq<Cell>>, j: nat, fills: seq<Cell>)
    requires forall i :: 0 <= i < |rows| ==> j < |rows[i]|
    requires j < |fills|
    ensures UpdateColumn(rows, j, FillWith(fills[j])) == UpdateColumn(rows, j, FillGaps(fills))
  {
  }

  /** `select_dtypes(include=wanted)`, as a mask over the columns. */
  function KindMask(kinds: seq<Kind>, wanted: set<Kind>): (m: seq<bool>)
    ensures |m| == |kinds|
    ensures forall k :: 0 <= k < |kinds| ==> (m[k] <==> kinds[k] in wanted)
  {
    seq(|kinds|, k requires 0 <= k < |kinds| => kinds[k] in wanted)
  }

  /** The `for col in df.select_dtypes(include=["object"])` loop of
      `clean_dataframe`. */
  function StripObjects(f: Frame): (r: Frame)
    ensures r.columns == f.columns && r.kinds == f.kinds
    ensures WellFormed(f) ==> WellFormed(r)
  {
    var r := f.(rows := MapColumns(f.rows, KindMask(f.kinds, {Object}), StripText, |f.columns|));
    assert WellFormed(f) ==> forall i :: 0 <= i < |r.rows| ==> RowFits(r.kinds, r.rows[i]) by {
      if WellFormed(f) {
        forall i | 0 <= i < |r.rows| ensures RowFits(r.kinds, r.rows[i]) {
          assert RowFits(f.kinds, f.rows[i]);
        }
      }
    }
    r
  }

  // ---------------------------------------------------------------------------
  // When a step changes nothing

  /** Headers that are stripped and hold no newline are already tidy. */
  lemma TidyHeadersIdle(f: Frame)
    requires forall j :: 0 <= j < |f.columns| ==> Stripped(f.columns[j]) && '\n' !in f.columns[j]
    ensures TidyHeaders(f) == f
  {
    forall j | 0 <= j < |f.columns| ensures TidyHeader(f.columns[j]) == f.columns[j] {
      StripStripped(f.columns[j]);
    }
  }

  /** `dropna(axis=0, how="all")` keeps a frame whose every row has a value. */
  lemma DropEmptyRowsIdle(f: Frame)
    requires forall i :: 0 <= i < |f.rows| ==> HasValue(f.rows[i])
    ensures DropEmptyRows(f) == f
  {
    FilterAll(f.rows, HasValue);
  }

  /** Every column below `n` has a value, so every one is kept. */
  lemma {:induction false} KeptAllColumns(rows: seq<seq<Cell>>, n: nat)
    requires forall j :: 0 <= j < n ==> ColumnHasValue(rows, j)
    ensures KeptColumns(rows, n) == seq(n, j requires 0 <= j < n => j)
  {
    if n > 0 {
      KeptAllColumns(rows, n - 1);
    }
  }

  /** `dropna(axis=1, how="all")` keeps a frame whose every column has a value. */
  lemma DropEmptyColumnsIdle(f: Frame)
    requires WellFormed(f)
    requires forall j :: 0 <= j < |f.columns| ==> ColumnHasValue(f.rows, j)
    ensures DropEmptyColumns(f) == f
  {
    KeptAllColumns(f.rows, |f.columns|);
    var r := DropEmptyColumns(f);
    forall i | 0 <= i < |f.rows| ensures r.rows[i] == f.rows[i] {
      assert RowFits(f.kinds, f.rows[i]);
    }
  }

  /** `drop_duplicates()` keeps a frame without repeated rows. */
  lemma DropDuplicateRowsIdle(f: Frame)
    requires Distinct(f.rows)
    ensures DropDuplicateRows(f) == f
  {
    DedupOfDistinct(f.rows);
  }

  /** On a frame no earlier step changes, `clean_dataframe` only strips the
      object columns and replaces NA-like strings. */
  lemma CleanedFrameOfTidy(f: Frame)
    requires WellFormed(f)
    requires forall j :: 0 <= j < |f.columns| ==> Stripped(f.columns[j]) && '\n' !in f.columns[j]
    requires forall i :: 0 <= i < |f.rows| ==> HasValue(f.rows[i])
    requires forall j :: 0 <= j < |f.columns| ==> ColumnHasValue(f.rows, j)
    requires Distinct(f.rows)
    ensures CleanedFrame(f) == ReplaceNaLike(StripObjects(f))
  {
    TidyHeadersIdle(f);
    DropEmptyRowsIdle(f);
    DropEmptyColumnsIdle(f);
    DropDuplicateRowsIdle(f);
  }

  /** After the strip loop every cell of an object column is a string without
      surrounding whitespace. */
  lemma StripObjectsStripped(f: Frame, i: nat, j: nat)
    requires WellFormed(f) && i < |f.rows| && j < |f.columns| && f.kinds[j] == Object
    ensures StripObjects(f).rows[i][j].Text? && Stripped(StripObjects(f).rows[i][j].s)
  {
    assert RowFits(f.kinds, f.rows[i]);
  }

  /** One cell of `StripObjects`: object columns are stripped, others kept. */
  lemma StripObjectsCell(f: Frame, i: nat, j: nat)
    requires i < |f.rows| && j < |f.rows[i]| && j < |f.columns|
    ensures StripObjects(f).rows[i][j] ==
      if j < |f.kinds| && f.kinds[j] == Object then StripCell(f.rows[i][j]) else f.rows[i][j]
  {
  }

  // ---------------------------------------------------------------------------
  // clean_dataframe

  /** What `clean_dataframe` leaves in the frame object it was given: every
      step up to the strip loop happens in place. */
  function CleanedInPlace(f: Frame): (r: Frame)
    requires WellFormed(f)
    ensures WellFormed(r)
  {
    StripObjects(DropDuplicateRows(DropEmptyColumns(DropEmptyRows(TidyHeaders(f)))))
  }

  /** What `clean_dataframe` returns: the in-place result with NA-like strings
      replaced, as a new frame. */
  function CleanedFrame(f: Frame): (r: Frame)
    requires WellFormed(f)
    ensures WellFormed(r)
  {
    ReplaceNaLike(CleanedInPlace(f))
  }

  /** `clean_dataframe` never adds rows or columns; the surviving columns are
      the tidied headers of the columns with a value, in their original order,
      and no two rows are equal right after `drop_duplicates`. */
  lemma CleanedFrameShape(f: Frame)
    requires WellFormed(f)
    ensures var t := DropEmptyRows(TidyHeaders(f));
      var idx := KeptColumns(t.rows, |t.columns|);
      && Increasing(idx)
      && CleanedFrame(f).columns == Project(TidyHeaders(f).columns, idx)
      && |CleanedFrame(f).columns| <= |f.columns|
      && |CleanedFrame(f).rows| <= |f.rows|
      && Distinct(DropDuplicateRows(DropEmptyColumns(t)).rows)
  {
  }

  /** Duplicates are dropped before the strip: two rows that differ only by
      whitespace around the strings of object columns both survive
      `drop_duplicates` and are equal once stripped. */
  lemma StripMergesPaddedRows(f: Frame, a: nat, b: nat)
    requires WellFormed(f) && a < |f.rows| && b < |f.rows|
    requires forall j :: 0 <= j < |f.columns| ==>
      f.rows[a][j] == f.rows[b][j]
      || (f.kinds[j] == Object && f.rows[a][j].Text? && f.rows[b][j].Text? && Strip(f.rows[a][j].s) == Strip(f.rows[b][j].s))
    ensures StripObjects(f).rows[a] == StripObjects(f).rows[b]
  {
    assert RowFits(f.kinds, f.rows[a]) && RowFits(f.kinds, f.rows[b]);
    forall j | 0 <= j < |f.columns| ensures StripObjects(f).rows[a][j] == StripObjects(f).rows[b][j] {
      StripObjectsCell(f, a, j);
      StripObjectsCell(f, b, j);
    }
  }

  /** After `clean_dataframe` a cell of an object column is missing exactly
      when its stripped string is one of the NA-like tokens; a gap that
      survives to the strip loop is the string "nan", which is not one. */
  lemma CleanedObjectCells(f: Frame, i: nat, j: nat)
    requires WellFormed(f)
    requires i < |CleanedFrame(f).rows| && j < |CleanedFrame(f).columns| && CleanedFrame(f).kinds[j] == Object
    ensures var c := CleanedInPlace(f).rows[i][j];
      && c.Text?
      && (CleanedFrame(f).rows[i][j] == Missing <==> c.s in NaTokens)
      && (CleanedFrame(f).rows[i][j] != Missing ==> CleanedFrame(f).rows[i][j] == c)
  {
    var g := DropDuplicateRows(DropEmptyColumns(DropEmptyRows(TidyHeaders(f))));
    StripObjectsStripped(g, i, j);
    ReplaceNaLikeExact(CleanedInPlace(f), i, j);
  }

  /** A surviving row of `clean_dataframe` comes from a row of the input with a
      value in it. */
  lemma CleanedRowsFromInput(f: Frame)
    requires WellFormed(f)
    ensures var t := DropEmptyRows(TidyHeaders(f));
      var d := DropEmptyColumns(t);
      && (forall row :: row in DropDuplicateRows(d).rows <==> row in d.rows)
      && (forall row :: row in t.rows ==> row in f.rows && HasValue(row))
  {
  }

  /** The "nan" quirk: a missing cell of an object column that survives to the
      strip loop comes out as the string "nan", and the NA replacement does
      not turn it back into a missing value. */
  lemma MissingObjectCellBecomesNan(f: Frame, i: nat, j: nat)
    requires WellFormed(f) && i < |f.rows| && j < |f.columns|
    requires f.kinds[j] == Object && f.rows[i][j] == Missing
    ensures StripObjects(f).rows[i][j] == Text("nan")
    ensures ReplaceNaLike(StripObjects(f)).rows[i][j] == Text("nan")
  {
    NaTokensCaseSensitive();
  }
}
