/**
 * The pandas DataFrame as a value: named columns, a dtype kind per column and
 * rows of cells. Parsers produce it; the cleaner wraps it in a mutable object.
 */
module Frames {
  import opened Results
  import opened Seqs
  import opened Dicts

  /** One cell: NaN/None, a number, or a string. */
  datatype Cell = Missing | Num(x: real) | Text(s: string)

  /** The dtype family of a column: a numpy number, `object`, `category`, or
      anything else (bool, datetime), which the cleaner leaves alone. */
  datatype Kind = Numeric | Object | Category | OtherKind

  /** The cells a column of kind `k` holds. */
  predicate Fits(k: Kind, c: Cell) {
    match k
    case Numeric => !c.Text?
    case Object => !c.Num?
    case Category => !c.Num?
    case OtherKind => true
  }

  datatype Frame = Frame(columns: seq<string>, kinds: seq<Kind>, rows: seq<seq<Cell>>)

  /** A row with one cell per column, each fitting its column's kind. */
  predicate RowFits(kinds: seq<Kind>, row: seq<Cell>) {
    |row| == |kinds| && forall j :: 0 <= j < |row| ==> Fits(kinds[j], row[j])
  }

  /** Every row has one cell per column and every cell fits its column's kind. */
  predicate WellFormed(f: Frame) {
    && |f.kinds| == |f.columns|
    && (forall i :: 0 <= i < |f.rows| ==> RowFits(f.kinds, f.rows[i]))
  }

  /** `df.empty`: no rows or no columns. */
  predicate IsEmpty(f: Frame) {
    |f.rows| == 0 || |f.columns| == 0
  }

  /** Column `j` of `rows`, top to bottom (a row too short to have one reads
      as missing). */
  function Column(rows: seq<seq<Cell>>, j: nat): (col: seq<Cell>)
    ensures |col| == |rows|
  {
    seq(|rows|, i requires 0 <= i < |rows| => if j < |rows[i]| then rows[i][j] else Missing)
  }

  /** The numbers of a column, in order, missing cells skipped. */
  function Numbers(col: seq<Cell>): (xs: seq<real>)
    ensures |xs| <= |col|
    ensures (exists i :: 0 <= i < |col| && col[i].Num?) ==> |xs| > 0
  {
    if |col| == 0 then []
    else
      var init := Numbers(col[..|col| - 1]);
      var last := col[|col| - 1];
      assert forall i :: 0 <= i < |col| - 1 ==> col[..|col| - 1][i] == col[i];
      if last.Num? then init + [last.x] else init
  }

  /** The strings of a column, in order, missing cells skipped. */
  function Texts(col: seq<Cell>): (ss: seq<string>)
    ensures |ss| <= |col|
    ensures (exists i :: 0 <= i < |col| && col[i].Text?) ==> |ss| > 0
  {
    if |col| == 0 then []
    else
      var init := Texts(col[..|col| - 1]);
      var last := col[|col| - 1];
      assert forall i :: 0 <= i < |col| - 1 ==> col[..|col| - 1][i] == col[i];
      if last.Text? then init + [last.s] else init
  }

  /** The number of missing cells in `col` (`isnull().sum()`). */
  function NullCount(col: seq<Cell>): (n: nat)
    ensures n <= |col|
  {
    Count(col, Missing)
  }

  /** All the keys of `records`, in order of first appearance. */
  function AllKeys(records: seq<Dict<Cell>>): seq<string> {
    if |records| == 0 then [] else AllKeys(records[..|records| - 1]) + Keys(records[|records| - 1])
  }

  lemma {:induction false} AllKeysContains(records: seq<Dict<Cell>>, i: nat, k: string)
    requires i < |records| && k in Keys(records[i])
    ensures k in AllKeys(records)
  {
    if i < |records| - 1 {
      AllKeysContains(records[..|records| - 1], i, k);
    }
  }

  /** `pd.DataFrame(records)` for a list of dicts of strings and None: the
      columns are the keys in order of first appearance, a key a record lacks
      gives a missing cell, and every column is of `object` dtype. */
  function FromRecords(records: seq<Dict<Cell>>): (f: Frame)
    requires forall i, k :: 0 <= i < |records| && 0 <= k < |records[i]| ==> !records[i][k].1.Num?
    ensures WellFormed(f)
    ensures |f.rows| == |records|
    ensures Distinct(f.columns)
  {
    var cols := Dedup(AllKeys(records));
    DedupDistinct(AllKeys(records));
    var f := Frame(
      cols,
      seq(|cols|, _ => Object),
      seq(|records|, i requires 0 <= i < |records| =>
        seq(|cols|, j requires 0 <= j < |cols| =>
          match Get(records[i], cols[j]) case Some(c) => c case None => Missing)));
    assert forall i, j :: 0 <= i < |records| && 0 <= j < |cols| ==> Fits(Object, f.rows[i][j]) by {
      forall i, j | 0 <= i < |records| && 0 <= j < |cols| ensures Fits(Object, f.rows[i][j]) {
        var ki := IndexOfKey(Keys(records[i]), cols[j]);
        if ki >= 0 { assert f.rows[i][j] == records[i][ki].1; }
      }
    }
    f
  }

  /** Every key of every record is a column, and the record's value for it is
      the cell in that record's row. */
  lemma RecordCell(records: seq<Dict<Cell>>, i: nat, k: string)
    requires forall i, k :: 0 <= i < |records| && 0 <= k < |records[i]| ==> !records[i][k].1.Num?
    requires i < |records| && k in Keys(records[i])
    ensures var f := FromRecords(records);
      exists j :: 0 <= j < |f.columns| && f.columns[j] == k && Some(f.rows[i][j]) == Get(records[i], k)
  {
    var f := FromRecords(records);
    AllKeysContains(records, i, k);
    DedupElements(AllKeys(records));
    var j := IndexOfKey(f.columns, k);
    assert f.columns[j] == k;
  }

  /** A frame built from one dict has that dict's keys as its columns and the
      dict's values as its only row. */
  lemma SingleRecord(d: Dict<Cell>)
    requires forall k :: 0 <= k < |d| ==> !d[k].1.Num?
    requires Distinct(Keys(d))
    ensures var f := FromRecords([d]);
      && f.columns == Keys(d) && |f.rows| == 1
      && forall j :: 0 <= j < |f.columns| ==> Get(d, f.columns[j]) == Some(f.rows[0][j])
  {
    SingleRecordColumns(d);
    forall j | 0 <= j < |Keys(d)| ensures Get(d, Keys(d)[j]) == Some(FromRecords([d]).rows[0][j]) {
      SingleRecordCell(d, j);
    }
  }

  lemma SingleRecordColumns(d: Dict<Cell>)
    requires forall k :: 0 <= k < |d| ==> !d[k].1.Num?
    requires Distinct(Keys(d))
    ensures FromRecords([d]).columns == Keys(d)
  {
    var records := [d];
    assert AllKeys(records) == Keys(d) by {
      assert records[..0] == [];
      assert AllKeys(records[..0]) == [];
    }
    DedupOfDistinct(Keys(d));
  }

  lemma SingleRecordCell(d: Dict<Cell>, j: nat)
    requires forall k :: 0 <= k < |d| ==> !d[k].1.Num?
    requires Distinct(Keys(d))
    requires FromRecords([d]).columns == Keys(d)
    requires j < |Keys(d)|
    ensures Get(d, Keys(d)[j]) == Some(FromRecords([d]).rows[0][j])
  {
    assert Get(d, Keys(d)[j]).Some?;
  }

  /** A one-column frame of strings, one row per value
      (`pd.DataFrame({name: values})`). */
  function SingleColumn(name: string, values: seq<string>): (f: Frame)
    ensures WellFormed(f) && f.columns == [name] && |f.rows| == |values|
    ensures forall i :: 0 <= i < |values| ==> f.rows[i] == [Text(values[i])]
  {
    Frame([name], [Object], seq(|values|, i requires 0 <= i < |values| => [Text(values[i])]))
  }

  /** A one-cell frame holds exactly that string. */
  lemma SingleCell(name: string, value: string)
    ensures SingleColumn(name, [value]) == Frame([name], [Object], [[Text(value)]])
  {
    assert SingleColumn(name, [value]).rows == [[Text(value)]];
  }
}
