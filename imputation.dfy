/**
 * The imputation of `clean_data_file` (data_engine/cleaner.py): numeric gaps
 * take the column median, string and category gaps the column mode (or
 * "Unknown"), and string columns are then stripped. Stated on frame values;
 * the `DataFrame` class in module Cleaner is proved to end in these states.
 */
module Imputation {
  import opened Results
  import opened Text
  import opened Seqs
  import opened Frames
  import opened Cleaning

  // ---------------------------------------------------------------------------
  // Median

  predicate SortedReals(s: seq<real>) {
    forall i, j :: 0 <= i < j < |s| ==> s[i] <= s[j]
  }

  /** `x` inserted into sorted `s` at its place. */
  function InsertReal(x: real, s: seq<real>): (r: seq<real>)
    requires SortedReals(s)
    ensures SortedReals(r) && multiset(r) == multiset(s) + multiset{x}
  {
    if |s| == 0 then [x]
    else if x <= s[0] then
      SortedCons(x, s);
      [x] + s
    else
      var t := InsertReal(x, s[1..]);
      assert s == [s[0]] + s[1..];
      forall k | 0 <= k < |t| ensures s[0] <= t[k] {
        assert t[k] in multiset(t);
        assert t[k] == x || t[k] in multiset(s[1..]);
      }
      SortedCons(s[0], t);
      [s[0]] + t
  }

  /** A value no greater than any element of a sorted sequence can go first. */
  lemma SortedCons(x: real, s: seq<real>)
    requires SortedReals(s) && forall k :: 0 <= k < |s| ==> x <= s[k]
    ensures SortedReals([x] + s)
  {
  }

  /** The values of `s` in ascending order. */
  function SortReals(s: seq<real>): (r: seq<real>)
    ensures SortedReals(r) && multiset(r) == multiset(s) && |r| == |s|
  {
    if |s| == 0 then []
    else
      var r := InsertReal(s[0], SortReals(s[1..]));
      assert s == [s[0]] + s[1..];
      assert |r| == |multiset(r)|;
      r
  }

  /** `Series.median()` over the non-missing numbers: the middle value of the
      sorted values, or the mean of the two middle ones; none for no values.
      The median lies between the smallest and the largest value. */
  function Median(xs: seq<real>): (m: Option<real>)
    ensures m.None? <==> |xs| == 0
    ensures m.Some? ==> (exists i :: 0 <= i < |xs| && xs[i] <= m.value) && (exists j :: 0 <= j < |xs| && m.value <= xs[j])
  {
    if |xs| == 0 then None
    else
      var s := SortReals(xs);
      var n := |s|;
      var lo := if n % 2 == 1 then n / 2 else n / 2 - 1;
      var hi := n / 2;
      assert s[lo] in multiset(xs) && s[hi] in multiset(xs);
      assert s[lo] <= s[hi];
      var m := if n % 2 == 1 then s[hi] else (s[lo] + s[hi]) / 2.0;
      assert s[lo] <= m <= s[hi];
      Some(m)
  }

  // ---------------------------------------------------------------------------
  // Mode

  /** Python's `a < b` on strings: code point by code point, a proper prefix
      first. */
  predicate StrLt(a: string, b: string) {
    if |a| == 0 then |b| > 0
    else if |b| == 0 then false
    else if a[0] != b[0] then a[0] < b[0]
    else StrLt(a[1..], b[1..])
  }

  lemma {:induction false} StrLtIrreflexive(a: string)
    ensures !StrLt(a, a)
  {
    if |a| > 0 {
      StrLtIrreflexive(a[1..]);
    }
  }

  lemma {:induction false} StrLtTransitive(a: string, b: string, c: string)
    requires StrLt(a, b) && StrLt(b, c)
    ensures StrLt(a, c)
  {
    if |a| > 0 && a[0] == b[0] && b[0] == c[0] {
      StrLtTransitive(a[1..], b[1..], c[1..]);
    }
  }

  /** `a` is preferred to `b` as the mode of `vals`: more frequent, or as
      frequent and smaller (pandas sorts the modes and the cleaner takes the
      first). */
  predicate Better(vals: seq<string>, a: string, b: string) {
    Count(vals, a) > Count(vals, b) || (Count(vals, a) == Count(vals, b) && StrLt(a, b))
  }

  lemma BetterIrreflexive(vals: seq<string>, a: string)
    ensures !Better(vals, a, a)
  {
    StrLtIrreflexive(a);
  }

  lemma BetterTransitive(vals: seq<string>, a: string, b: string, c: string)
    requires Better(vals, a, b) && Better(vals, b, c)
    ensures Better(vals, a, c)
  {
    if Count(vals, a) == Count(vals, b) == Count(vals, c) {
      StrLtTransitive(a, b, c);
    }
  }

  /** The candidate no other candidate is better than. */
  function Best(vals: seq<string>, cands: seq<string>): (b: string)
    requires |cands| > 0
    ensures b in cands
    ensures forall c :: c in cands ==> !Better(vals, c, b)
  {
    if |cands| == 1 then
      BetterIrreflexive(vals, cands[0]);
      cands[0]
    else
      var rest := Best(vals, cands[1..]);
      var x := cands[0];
      assert cands == [x] + cands[1..];
      if Better(vals, x, rest) then
        assert forall c :: c in cands ==> !Better(vals, c, x) by {
          forall c | c in cands ensures !Better(vals, c, x) {
            BetterIrreflexive(vals, x);
            if c != x && Better(vals, c, x) {
              BetterTransitive(vals, c, x, rest);
            }
          }
        }
        x
      else
        rest
  }

  /** `Series.mode()[0]` over the non-missing strings: a most frequent value,
      the smallest one among equally frequent values; none for no values. */
  function Mode(vals: seq<string>): (m: Option<string>)
    ensures m.None? <==> |vals| == 0
    ensures m.Some? ==> m.value in vals
    ensures m.Some? ==> forall v :: v in vals ==> Count(vals, v) <= Count(vals, m.value)
    ensures m.Some? ==> forall v :: v in vals && Count(vals, v) == Count(vals, m.value) ==> !StrLt(v, m.value)
  {
    if |vals| == 0 then None else Some(Best(vals, vals))
  }

  // ---------------------------------------------------------------------------
  // The fills of clean_data_file

  /** The fill value of every column: the median of its numbers, or none. */
  function MedianFills(f: Frame): (fills: seq<Cell>)
    ensures |fills| == |f.columns|
    ensures forall k :: 0 <= k < |fills| ==> fills[k].Missing? || fills[k].Num?
  {
    seq(|f.columns|, k requires 0 <= k < |f.columns| =>
      match Median(Numbers(Column(f.rows, k))) case Some(m) => Num(m) case None => Missing)
  }

  /** Step 4: `fillna(median)` in every numeric column. */
  function FillMedians(f: Frame): (r: Frame)
    ensures r.columns == f.columns && r.kinds == f.kinds
    ensures WellFormed(f) ==> WellFormed(r)
  {
    var r := f.(rows := MapColumns(f.rows, KindMask(f.kinds, {Numeric}), FillGaps(MedianFills(f)), |f.columns|));
    assert WellFormed(f) ==> forall i :: 0 <= i < |r.rows| ==> RowFits(r.kinds, r.rows[i]) by {
      if WellFormed(f) {
        forall i | 0 <= i < |r.rows| ensures RowFits(r.kinds, r.rows[i]) {
          assert RowFits(f.kinds, f.rows[i]);
        }
      }
    }
    r
  }

  /** The fill value of every column: its mode, or "Unknown". */
  function ModeFills(f: Frame): (fills: seq<Cell>)
    ensures |fills| == |f.columns|
    ensures forall k :: 0 <= k < |fills| ==> fills[k].Text?
    ensures forall k :: 0 <= k < |fills| ==>
      fills[k] == Text(if |Texts(Column(f.rows, k))| == 0 then "Unknown" else Mode(Texts(Column(f.rows, k))).value)
  {
    seq(|f.columns|, k requires 0 <= k < |f.columns| =>
      Text(match Mode(Texts(Column(f.rows, k))) case Some(v) => v case None => "Unknown"))
  }

  /** The string and category columns, which steps 5 and 6 visit. */
  const Categorical: set<Kind> := {Object, Category}

  /** Step 5: `fillna(mode)` in every object and category column. */
  function FillModes(f: Frame): (r: Frame)
    ensures r.columns == f.columns && r.kinds == f.kinds
    ensures WellFormed(f) ==> WellFormed(r)
  {
    var r := f.(rows := MapColumns(f.rows, KindMask(f.kinds, Categorical), FillGaps(ModeFills(f)), |f.columns|));
    assert WellFormed(f) ==> forall i :: 0 <= i < |r.rows| ==> RowFits(r.kinds, r.rows[i]) by {
      if WellFormed(f) {
        forall i | 0 <= i < |r.rows| ensures RowFits(r.kinds, r.rows[i]) {
          assert RowFits(f.kinds, f.rows[i]);
        }
      }
    }
    r
  }

  /** The kinds after step 6: `astype(str)` makes every visited column an
      object column. */
  function StrippedKinds(kinds: seq<Kind>): (r: seq<Kind>)
    ensures |r| == |kinds|
    ensures forall k :: 0 <= k < |kinds| ==> r[k] == (if kinds[k] in Categorical then Object else kinds[k])
  {
    seq(|kinds|, k requires 0 <= k < |kinds| => if kinds[k] in Categorical then Object else kinds[k])
  }

  /** Step 6: `astype(str).str.strip()` in every object and category column. */
  function StripCategorical(f: Frame): (r: Frame)
    ensures r.columns == f.columns && r.kinds == StrippedKinds(f.kinds)
    ensures |r.rows| == |f.rows|
    ensures WellFormed(f) ==> WellFormed(r)
  {
    var r := Frame(f.columns, StrippedKinds(f.kinds),
      MapColumns(f.rows, KindMask(f.kinds, Categorical), StripText, |f.columns|));
    assert WellFormed(f) ==> forall i :: 0 <= i < |r.rows| ==> RowFits(r.kinds, r.rows[i]) by {
      if WellFormed(f) {
        forall i | 0 <= i < |r.rows| ensures RowFits(r.kinds, r.rows[i]) {
          assert RowFits(f.kinds, f.rows[i]);
        }
      }
    }
    r
  }

  /** Step 3: the header normalization. */
  function NormalizeHeaders(f: Frame): (r: Frame)
    ensures r.kinds == f.kinds && r.rows == f.rows
    ensures r.columns == NormalizeNames(f.columns)
    ensures WellFormed(f) ==> WellFormed(r)
  {
    f.(columns := NormalizeNames(f.columns))
  }

  /** What `clean_data_file` leaves in the frame it was given (steps 1 to 6;
      the CSV write of step 7 is not modelled). */
  function CleanedDataFile(f: Frame): (r: Frame)
    requires WellFormed(f)
    ensures WellFormed(r)
  {
    StripCategorical(FillModes(FillMedians(NormalizeHeaders(DropDuplicateRows(DropEmptyColumns(f))))))
  }

  // ---------------------------------------------------------------------------
  // What the fills guarantee

  /** One cell of a fill: a gap in a visited column takes the column's fill
      value; every other cell stays. */
  lemma FillCell(rows: seq<seq<Cell>>, mask: seq<bool>, fills: seq<Cell>, upTo: nat, i: nat, k: nat)
    requires i < |rows| && k < |rows[i]|
    ensures MapColumns(rows, mask, FillGaps(fills), upTo)[i][k] ==
      if k < upTo && k < |mask| && mask[k] && rows[i][k] == Missing && k < |fills| then fills[k] else rows[i][k]
  {
  }

  /** A column with a value keeps one after `drop_duplicates`. */
  lemma DedupKeepsColumnValues(f: Frame, j: nat)
    requires ColumnHasValue(f.rows, j)
    ensures ColumnHasValue(DropDuplicateRows(f).rows, j)
  {
    var i :| 0 <= i < |f.rows| && j < |f.rows[i]| && f.rows[i][j] != Missing;
    var r := DropDuplicateRows(f).rows;
    assert f.rows[i] in r;
    var i' :| 0 <= i' < |r| && r[i'] == f.rows[i];
  }

  /** A numeric column with a value has a median, so the median fill leaves
      it without gaps. */
  lemma FillMediansNoGaps(f: Frame, i: nat, k: nat)
    requires WellFormed(f) && i < |f.rows| && k < |f.columns|
    requires f.kinds[k] == Numeric && ColumnHasValue(f.rows, k)
    ensures FillMedians(f).rows[i][k] != Missing
  {
    var i0 :| 0 <= i0 < |f.rows| && k < |f.rows[i0]| && f.rows[i0][k] != Missing;
    assert RowFits(f.kinds, f.rows[i0]);
    assert Column(f.rows, k)[i0].Num?;
    assert Median(Numbers(Column(f.rows, k))).Some?;
    assert RowFits(f.kinds, f.rows[i]);
    FillCell(f.rows, KindMask(f.kinds, {Numeric}), MedianFills(f), |f.columns|, i, k);
  }

  /** Every gap of a string or category column takes the column's mode (or
      "Unknown"), so none is left. */
  lemma FillModesNoGaps(f: Frame, i: nat, k: nat)
    requires WellFormed(f) && i < |f.rows| && k < |f.columns| && f.kinds[k] in Categorical
    ensures FillModes(f).rows[i][k].Text?
  {
    assert RowFits(f.kinds, f.rows[i]);
    FillCell(f.rows, KindMask(f.kinds, Categorical), ModeFills(f), |f.columns|, i, k);
  }

  /** A gap in a numeric column takes the median of the column's numbers,
      which lies between its smallest and its largest number. */
  lemma FillMediansGap(f: Frame, i: nat, k: nat)
    requires WellFormed(f) && i < |f.rows| && k < |f.columns|
    requires f.kinds[k] == Numeric && f.rows[i][k] == Missing
    requires |Numbers(Column(f.rows, k))| > 0
    ensures var xs := Numbers(Column(f.rows, k));
      && FillMedians(f).rows[i][k] == Num(Median(xs).value)
      && (exists a :: 0 <= a < |xs| && xs[a] <= Median(xs).value)
      && (exists b :: 0 <= b < |xs| && Median(xs).value <= xs[b])
  {
    assert RowFits(f.kinds, f.rows[i]);
    FillCell(f.rows, KindMask(f.kinds, {Numeric}), MedianFills(f), |f.columns|, i, k);
  }

  /** A gap in a string or category column takes the column's mode: a most
      frequent string, the smallest among equally frequent ones; a column
      without strings fills with "Unknown". */
  lemma FillModesGap(f: Frame, i: nat, k: nat)
    requires WellFormed(f) && i < |f.rows| && k < |f.columns|
    requires f.kinds[k] in Categorical && f.rows[i][k] == Missing
    ensures FillModes(f).rows[i][k] == ModeFills(f)[k]
    ensures var vals := Texts(Column(f.rows, k)); var c := FillModes(f).rows[i][k];
      && c.Text?
      && (|vals| == 0 ==> c.s == "Unknown")
      && (|vals| > 0 ==>
            && c.s in vals
            && (forall v :: v in vals ==> Count(vals, v) <= Count(vals, c.s))
            && (forall v :: v in vals && Count(vals, v) == Count(vals, c.s) ==> !StrLt(v, c.s)))
  {
    assert RowFits(f.kinds, f.rows[i]);
    FillCell(f.rows, KindMask(f.kinds, Categorical), ModeFills(f), |f.columns|, i, k);
  }

  /** A tie is broken towards the smaller string: "b" and "a", each seen
      once, have the mode "a". */
  lemma ModeTie()
    ensures Mode(["b", "a"]) == Some("a")
  {
    var vals := ["b", "a"];
    assert Count(vals, "a") == 1 && Count(vals, "b") == 1;
    assert StrLt("a", "b");
    var m := Mode(vals).value;
    assert m == "a" || m == "b";
    if m == "b" {
      assert "a" in vals && Count(vals, "a") == Count(vals, m);
    }
  }

  /** So a gap below "b" and "a" is filled with "a". */
  lemma FillModesTie()
    ensures var f := Frame(["c"], [Object], [[Text("b")], [Text("a")], [Missing]]);
      WellFormed(f) && FillModes(f).rows[2][0] == Text("a")
  {
    var f := Frame(["c"], [Object], [[Text("b")], [Text("a")], [Missing]]);
    var col := Column(f.rows, 0);
    assert col == [Text("b"), Text("a"), Missing];
    assert col[..2] == [Text("b"), Text("a")] && col[..2][..1] == [Text("b")] && col[..2][..1][..0] == [];
    assert Texts(col[..2][..1]) == ["b"];
    assert Texts(col[..2]) == ["b", "a"];
    assert Texts(col) == ["b", "a"];
    ModeTie();
    FillModesGap(f, 2, 0);
  }

  /** The fills only write into gaps: a cell that had a value keeps it. */
  lemma FillsKeepValues(f: Frame, i: nat, k: nat)
    requires i < |f.rows| && k < |f.rows[i]| && f.rows[i][k] != Missing
    ensures FillMedians(f).rows[i][k] == f.rows[i][k]
    ensures FillModes(f).rows[i][k] == f.rows[i][k]
  {
    FillCell(f.rows, KindMask(f.kinds, {Numeric}), MedianFills(f), |f.columns|, i, k);
    FillCell(f.rows, KindMask(f.kinds, Categorical), ModeFills(f), |f.columns|, i, k);
  }

  /** After `clean_data_file` no numeric, string or category column has a gap:
      numeric cells hold numbers (a gap the median, by `FillMediansGap`),
      the string columns hold stripped strings,
      and no column is of category dtype any more. Only columns of other
      dtypes may keep missing values. */
  lemma CleanedDataFileNoGaps(f: Frame, i: nat, k: nat)
    requires WellFormed(f)
    requires i < |CleanedDataFile(f).rows| && k < |CleanedDataFile(f).columns|
    ensures CleanedDataFile(f).kinds[k] != Category
    ensures CleanedDataFile(f).kinds[k] == Numeric ==> CleanedDataFile(f).rows[i][k].Num?
    ensures CleanedDataFile(f).kinds[k] == Object ==>
      CleanedDataFile(f).rows[i][k].Text? && Stripped(CleanedDataFile(f).rows[i][k].s)
  {
    var d := DropEmptyColumns(f);
    var u := DropDuplicateRows(d);
    DedupKeepsColumnValues(d, k);
    var h := NormalizeHeaders(u);
    var m := FillMedians(h);
    var o := FillModes(m);
    var r := StripCategorical(o);
    assert RowFits(h.kinds, h.rows[i]);
    assert RowFits(o.kinds, o.rows[i]);
    if h.kinds[k] == Numeric {
      FillMediansNoGaps(h, i, k);
      FillsKeepValues(m, i, k);
      assert r.rows[i][k] == o.rows[i][k];
    } else if h.kinds[k] in Categorical {
      FillModesNoGaps(m, i, k);
      assert r.rows[i][k] == StripCell(o.rows[i][k]);
    }
  }

  /** `clean_data_file` keeps the columns with a value, in order, under their
      normalized names, and keeps one copy of every distinct row. */
  lemma CleanedDataFileShape(f: Frame)
    requires WellFormed(f)
    ensures var idx := KeptColumns(f.rows, |f.columns|);
      && CleanedDataFile(f).columns == NormalizeNames(Project(f.columns, idx))
      && |CleanedDataFile(f).rows| == |Dedup(DropEmptyColumns(f).rows)|
      && |CleanedDataFile(f).rows| == |FirstPositions(DropEmptyColumns(f).rows)|
      && |CleanedDataFile(f).rows| <= |f.rows|
  {
  }

  /** Row `t` of the cleaned table comes from input row `pos[t]`, the `t`-th
      row whose kept cells occur there for the first time, and cell `k` from
      the `k`-th kept column: every value that cell had is still there,
      stripped in the string and category columns. */
  lemma CleanedDataFileRow(f: Frame, t: nat, k: nat)
    requires WellFormed(f)
    requires t < |FirstPositions(DropEmptyColumns(f).rows)| && k < |KeptColumns(f.rows, |f.columns|)|
    ensures var pos := FirstPositions(DropEmptyColumns(f).rows);
      var idx := KeptColumns(f.rows, |f.columns|);
      && pos[t] < |f.rows| && t < |CleanedDataFile(f).rows|
      && k < |CleanedDataFile(f).rows[t]| && idx[k] < |f.rows[pos[t]]|
      && (f.rows[pos[t]][idx[k]] != Missing ==>
            CleanedDataFile(f).rows[t][k] ==
              if f.kinds[idx[k]] in Categorical then StripCell(f.rows[pos[t]][idx[k]])
              else f.rows[pos[t]][idx[k]])
  {
    var idx := KeptColumns(f.rows, |f.columns|);
    var d := DropEmptyColumns(f);
    var pos := FirstPositions(d.rows);
    var u := DropDuplicateRows(d);
    var h := NormalizeHeaders(u);
    var m := FillMedians(h);
    var o := FillModes(m);
    var i := pos[t];
    assert RowFits(f.kinds, f.rows[i]);
    assert u.rows[t] == d.rows[i] == Project(f.rows[i], idx);
    assert RowFits(h.kinds, h.rows[t]);
    var src := f.rows[i][idx[k]];
    assert h.rows[t][k] == src;
    if src != Missing {
      FillsKeepValues(h, t, k);
      FillsKeepValues(m, t, k);
      assert o.rows[t][k] == src;
    }
  }
}
