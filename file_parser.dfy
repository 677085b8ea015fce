/**
 * utils/file_parser.py: classifying an uploaded file by its extension and
 * dispatching it to a parser that yields a table. The pandas readers, the XML
 * and PDF libraries, the e-mail parser and the file system are reached through
 * an `Io` record that says what each of them yields for the file at hand; the
 * structural conversions (XML children to records, HL7 segments to one row,
 * SQL and log text to one-column tables) are modelled outright.
 */
module FileParser {
  import opened Results
  import opened Text
  import opened Seqs
  import opened Dicts
  import opened Frames

  /** The twelve extensions the upload layer accepts. */
  const SupportedFormats: seq<string> :=
    [".csv", ".xlsx", ".xls", ".json", ".parquet", ".txt",
     ".xml", ".sql", ".log", ".hl7", ".pdf", ".eml"]

  /** The extensions the effective `parse_file` reads. */
  const ParseFileFormats: seq<string> := [".csv", ".xlsx", ".xls", ".json", ".parquet", ".txt", ".xml"]

  /** The extension every dispatcher branches on: `os.path.splitext(p)[1].lower()`. */
  function Ext(p: string): string {
    Lower(SplitExt(p))
  }

  /** `is_supported_format`: the lower-cased extension is one of the twelve.
      The lower-cased path then ends in that extension, after at least one
      other character. */
  function IsSupportedFormat(p: string): (b: bool)
    ensures b ==> |Ext(p)| < |p| && EndsWith(Lower(p), Ext(p))
  {
    SplitExtLower(p);
    Ext(p) in SupportedFormats
  }

  /** An XML element: its tag, its text (None when it has none) and its children. */
  datatype XmlElement = Element(tag: string, text: Option<string>, children: seq<XmlElement>)

  /** The reader a dispatcher branch hands the file to. */
  datatype Branch =
    | Csv            // pd.read_csv, UTF-8
    | CsvLatin1      // pd.read_csv(encoding="latin1")
    | Excel          // pd.read_excel
    | JsonNormalize  // json.load then pd.json_normalize
    | ReadJson       // pd.read_json
    | Parquet        // pd.read_parquet
    | Tsv            // pd.read_csv(delimiter="\t")
    | XmlChildren    // ElementTree, one record per child of the root
    | PandasXml      // pd.read_xml
    | LogTsv         // pd.read_csv(delimiter="\t", error_bad_lines=False)
    | SqlScript      // the whole text in one cell
    | PdfText        // PyPDF2 page texts joined by newlines
    | EmlFields      // email subject and payload
    | Hl7Segments    // one row keyed by segment ID

  /** What the outside world yields for the file being parsed. One reader per
      branch stands for every call the dispatchers make to it, so the model
      does not tell those calls apart: `JsonNormalize` covers the file opened
      with `errors="replace"`, with the locale's encoding and as UTF-8 before
      `json.load`, and `Tsv` covers `read_csv` with the C engine and with
      `engine='python'`. */
  datatype Io = Io(
    read: Branch -> Result<Frame>,          // the pandas reader of a branch
    xmlRoot: Result<XmlElement>,            // ET.parse(path).getroot()
    text: Result<string>,                   // open(path).read(), newlines translated
    pdfPages: Result<seq<string>>,          // page.extract_text() of each page
    email: Result<(Option<string>, string)>)  // msg["subject"], msg.get_payload() of a single-part message

  /** The pandas readers yield well-formed tables. */
  predicate IoWellFormed(io: Io) {
    forall b :: io.read(b).Ok? ==> WellFormed(io.read(b).value)
  }

  function TextCell(t: Option<string>): Cell {
    match t case Some(s) => Text(s) case None => Missing
  }

  /** One record per direct child of the root, mapping each of the child's
      direct sub-elements' tag to its text: `{elem.tag: elem.text for elem in child}`. */
  function XmlRecords(root: XmlElement): (records: seq<Dict<Cell>>)
    ensures |records| == |root.children|
  {
    seq(|root.children|, i requires 0 <= i < |root.children| =>
      FromPairs(TagTexts(root.children[i])))
  }

  /** The (tag, text) pairs of an element's direct children, in document order. */
  function TagTexts(e: XmlElement): seq<(string, Cell)> {
    seq(|e.children|, k requires 0 <= k < |e.children| => (e.children[k].tag, TextCell(e.children[k].text)))
  }

  /** The table the XML branch builds: `pd.DataFrame(records)`. */
  function XmlFrame(root: XmlElement): (f: Frame)
    ensures WellFormed(f) && |f.rows| == |root.children|
  {
    var records := XmlRecords(root);
    forall i, k | 0 <= i < |records| && 0 <= k < |records[i]| ensures !records[i][k].1.Num? {
      TextPairsNoNum(TagTexts(root.children[i]), k);
    }
    FromRecords(records)
  }

  lemma {:induction false} TextPairsNoNum(ps: seq<(string, Cell)>, k: nat)
    requires forall m :: 0 <= m < |ps| ==> !ps[m].1.Num?
    requires k < |FromPairs(ps)|
    ensures !FromPairs(ps)[k].1.Num?
  {
    if |ps| > 0 {
      var init := ps[..|ps| - 1];
      var d := FromPairs(init);
      var last := ps[|ps| - 1];
      var i := IndexOfKey(Keys(d), last.0);
      if i < 0 {
        if k < |d| { TextPairsNoNum(init, k); }
      } else if k != i {
        TextPairsNoNum(init, k);
      }
    }
  }

  /** XML parsing keeps document order and the last text of a repeated tag:
      record `i` lists the tags of child `i`'s sub-elements at their first
      appearance, and maps each tag to the text of its last sub-element. */
  lemma XmlRecordContents(root: XmlElement, i: nat, tag: string)
    requires i < |root.children|
    ensures Keys(XmlRecords(root)[i]) == Dedup(Keys(TagTexts(root.children[i])))
    ensures Get(XmlRecords(root)[i], tag) == LastValue(TagTexts(root.children[i]), tag)
  {
    FromPairsKeys(TagTexts(root.children[i]));
    FromPairsGet(TagTexts(root.children[i]), tag);
  }

  /** The segment ID of an HL7 segment: `seg.split("|")[0]`. */
  function SegmentId(seg: string): string {
    Split(seg, '|')[0]
  }

  /** `hl7_raw.strip().split('\n')`. */
  function Segments(raw: string): seq<string> {
    Split(Strip(raw), '\n')
  }

  /** (segment ID, segment) for each segment, in order. */
  function SegmentPairs(segs: seq<string>): seq<(string, Cell)> {
    seq(|segs|, i requires 0 <= i < |segs| => (SegmentId(segs[i]), Text(segs[i])))
  }

  /** The HL7 branch: `pd.DataFrame([{seg.split("|")[0]: seg for seg in segments}])`. */
  function Hl7Frame(raw: string): (f: Frame)
    ensures WellFormed(f)
  {
    SegmentRecord(Segments(raw))
  }

  /** The one-row table of the segment dict. */
  function SegmentRecord(segs: seq<string>): (f: Frame)
    ensures WellFormed(f)
  {
    var d := FromPairs(SegmentPairs(segs));
    SegmentRecordText(segs);
    assert forall i, k :: 0 <= i < |[d]| && 0 <= k < |[d][i]| ==> !([d])[i][k].1.Num? by {
      assert [d][0] == d;
    }
    FromRecords([d])
  }

  /** The segment dict holds only text. */
  lemma SegmentRecordText(segs: seq<string>)
    ensures forall k :: 0 <= k < |FromPairs(SegmentPairs(segs))| ==> !FromPairs(SegmentPairs(segs))[k].1.Num?
  {
    var ps := SegmentPairs(segs);
    forall k | 0 <= k < |FromPairs(ps)| ensures !FromPairs(ps)[k].1.Num? {
      TextPairsNoNum(ps, k);
    }
  }

  /** HL7 parsing yields exactly one row; its columns are the distinct segment
      IDs in order of first appearance, and each holds the last segment with
      that ID. */
  lemma Hl7OneRow(raw: string)
    ensures var f := Hl7Frame(raw); var ps := SegmentPairs(Segments(raw));
      && |f.rows| == 1
      && f.columns == Dedup(Keys(ps))
      && forall j :: 0 <= j < |f.columns| ==> Some(f.rows[0][j]) == LastValue(ps, f.columns[j])
  {
    SegmentRecordRow(Segments(raw));
  }

  lemma SegmentRecordRow(segs: seq<string>)
    ensures var f := SegmentRecord(segs); var ps := SegmentPairs(segs);
      && |f.rows| == 1
      && f.columns == Dedup(Keys(ps))
      && forall j :: 0 <= j < |f.columns| ==> Some(f.rows[0][j]) == LastValue(ps, f.columns[j])
  {
    var ps := SegmentPairs(segs);
    var d := FromPairs(ps);
    FromPairsKeys(ps);
    SegmentRecordText(segs);
    SingleRecord(d);
    Hl7Cells(ps, d, SegmentRecord(segs));
  }

  lemma Hl7Cells(ps: seq<(string, Cell)>, d: Dict<Cell>, f: Frame)
    requires d == FromPairs(ps) && f.columns == Keys(d) && |f.rows| == 1 && |f.rows[0]| == |f.columns|
    requires forall j :: 0 <= j < |f.columns| ==> Get(d, f.columns[j]) == Some(f.rows[0][j])
    ensures forall j :: 0 <= j < |f.columns| ==> Some(f.rows[0][j]) == LastValue(ps, f.columns[j])
  {
    forall j | 0 <= j < |f.columns| ensures Some(f.rows[0][j]) == LastValue(ps, f.columns[j]) {
      FromPairsGet(ps, f.columns[j]);
    }
  }

  /** The dispatch of the effective `parse_file` (the last of its three
      definitions, which is the one Python binds). */
  function ParseFileRoute(p: string): Result<Branch> {
    ParseFileBranch(Ext(p))
  }

  function ParseFileBranch(ext: string): Result<Branch> {
    if ext == ".csv" then Ok(Csv)
    else if ext == ".xlsx" || ext == ".xls" then Ok(Excel)
    else if ext == ".json" then Ok(JsonNormalize)
    else if ext == ".parquet" then Ok(Parquet)
    else if ext == ".txt" then Ok(Tsv)
    else if ext == ".xml" then Ok(XmlChildren)
    else Err(ValueError("Unsupported file type: " + ext))
  }

  /** `parse_file` (the definition Python binds): read the file with the
      branch's reader, or raise `ValueError` for any other extension. */
  function ParseFile(p: string, io: Io): (r: Result<Frame>)
    requires IoWellFormed(io)
    ensures r.Ok? ==> WellFormed(r.value)
  {
    match ParseFileRoute(p)
    case Err(e) => Err(e)
    case Ok(XmlChildren) =>
      (match io.xmlRoot case Ok(root) => Ok(XmlFrame(root)) case Err(e) => Err(e))
    case Ok(b) => io.read(b)
  }

  /** The effective `parse_file` reads exactly the seven extensions
      .csv, .xlsx, .xls, .json, .parquet, .txt and .xml, and raises
      `ValueError` naming the extension for every other one. */
  lemma ParseFileAccepts(p: string)
    ensures ParseFileRoute(p).Ok? <==> Ext(p) in ParseFileFormats
    ensures ParseFileRoute(p).Err? ==> ParseFileRoute(p).error == ValueError("Unsupported file type: " + Ext(p))
  {
  }

  /** The branch each of the seven extensions takes. */
  lemma ParseFileBranchOf(ext: string)
    ensures ext == ".csv" ==> ParseFileBranch(ext) == Ok(Csv)
    ensures ext == ".xlsx" || ext == ".xls" ==> ParseFileBranch(ext) == Ok(Excel)
    ensures ext == ".json" ==> ParseFileBranch(ext) == Ok(JsonNormalize)
    ensures ext == ".parquet" ==> ParseFileBranch(ext) == Ok(Parquet)
    ensures ext == ".txt" ==> ParseFileBranch(ext) == Ok(Tsv)
    ensures ext == ".xml" ==> ParseFileBranch(ext) == Ok(XmlChildren)
  {
  }

  /** What `parse_file` reads for each extension: the pandas reader of its
      branch, or for `.xml` the records of the root's children. */
  lemma ParseFileReads(p: string, io: Io)
    requires IoWellFormed(io)
    ensures Ext(p) == ".csv" ==> ParseFile(p, io) == io.read(Csv)
    ensures Ext(p) == ".xlsx" || Ext(p) == ".xls" ==> ParseFile(p, io) == io.read(Excel)
    ensures Ext(p) == ".json" ==> ParseFile(p, io) == io.read(JsonNormalize)
    ensures Ext(p) == ".parquet" ==> ParseFile(p, io) == io.read(Parquet)
    ensures Ext(p) == ".txt" ==> ParseFile(p, io) == io.read(Tsv)
    ensures Ext(p) == ".xml" && io.xmlRoot.Ok? ==> ParseFile(p, io) == Ok(XmlFrame(io.xmlRoot.value))
    ensures Ext(p) == ".xml" && io.xmlRoot.Err? ==> ParseFile(p, io) == Err(io.xmlRoot.error)
  {
    ParseFileBranchOf(Ext(p));
  }

  /** `.log`, `.sql`, `.pdf`, `.eml` and `.hl7` files pass `is_supported_format`
      but the effective `parse_file` rejects them. */
  lemma SupportedButNotParsed(p: string)
    requires Ext(p) in [".sql", ".log", ".hl7", ".pdf", ".eml"]
    ensures IsSupportedFormat(p)
    ensures ParseFile(p, Io(_ => Err(OtherError("")), Err(OtherError("")), Err(OtherError("")),
                            Err(OtherError("")), Err(OtherError("")))).Err?
    ensures ParseFileRoute(p).Err? && ParseFileRoute(p).error.ValueError?
  {
  }

  /** The first definition of `parse_file` (shadowed by the later ones): the
      same dispatch, except that its CSV and TSV calls pass `errors=` to
      `read_csv`, which does not accept it, and every exception comes back as
      a `RuntimeError` naming the path. */
  function ParseFileFirst(p: string, io: Io): (r: Result<Frame>)
    requires IoWellFormed(io)
    ensures r.Ok? ==> WellFormed(r.value)
    ensures r.Err? ==> r.error.RuntimeError? && StartsWith(r.error.msg, "Failed to parse file '" + p + "': ")
    ensures Ext(p) == ".csv" || Ext(p) == ".txt" || Ext(p) !in ParseFileFormats ==> r.Err?
    ensures Ext(p) == ".xlsx" || Ext(p) == ".xls" ==> (r.Ok? <==> io.read(Excel).Ok?)
    ensures Ext(p) == ".json" ==> (r.Ok? <==> io.read(JsonNormalize).Ok?)
    ensures Ext(p) == ".parquet" ==> (r.Ok? <==> io.read(Parquet).Ok?)
    ensures Ext(p) == ".xml" ==> (r.Ok? <==> io.xmlRoot.Ok?)
  {
    var ext := Ext(p);
    var raised :=
      if ext == ".csv" || ext == ".txt" then
        Err(TypeError("read_csv() got an unexpected keyword argument 'errors'"))
      else if ext == ".xlsx" || ext == ".xls" then io.read(Excel)
      else if ext == ".json" then io.read(JsonNormalize)
      else if ext == ".parquet" then io.read(Parquet)
      else if ext == ".xml" then
        (match io.xmlRoot case Ok(root) => Ok(XmlFrame(root)) case Err(e) => Err(e))
      else Err(ValueError("Unsupported file format: " + ext));
    match raised
    case Ok(df) => Ok(df)
    case Err(e) => Err(RuntimeError("Failed to parse file '" + p + "': " + e.msg))
  }

  const BadLinesKeyword: Exception := TypeError("read_csv() got an unexpected keyword argument 'error_bad_lines'")

  /** The dispatch of `parse_file_to_df`. */
  function ParseToDfRoute(p: string): Result<Branch> {
    ParseToDfBranch(Ext(p))
  }

  function ParseToDfBranch(ext: string): Result<Branch> {
    if ext == ".csv" then Ok(Csv)
    else if ext == ".xlsx" || ext == ".xls" then Ok(Excel)
    else if ext == ".json" then Ok(JsonNormalize)
    else if ext == ".txt" then Ok(Tsv)
    else if ext == ".parquet" then Ok(Parquet)
    else if ext == ".xml" then Ok(PandasXml)
    else if ext == ".log" then Ok(LogTsv)
    else if ext == ".sql" then Ok(SqlScript)
    else if ext == ".pdf" then Ok(PdfText)
    else if ext == ".eml" then Ok(EmlFields)
    else if ext == ".hl7" then Ok(Hl7Segments)
    else Err(ValueError("\U{274C} Unsupported file format: " + ext))
  }

  /** `parse_file_to_df`. Its `.log` branch passes `error_bad_lines=` to
      `read_csv`, which pandas 2 no longer accepts, so it always raises. */
  function ParseFileToDf(p: string, io: Io): (r: Result<Frame>)
    requires IoWellFormed(io)
    ensures r.Ok? ==> WellFormed(r.value)
    ensures !IsSupportedFormat(p) ==> r.Err? && r.error.ValueError?
    ensures Ext(p) == ".log" ==> r == Err(BadLinesKeyword)
  {
    ParseToDfAcceptsSupported(p);
    match ParseToDfRoute(p)
    case Err(e) => Err(e)
    case Ok(b) => ReadToDf(b, io)
  }

  /** One branch of `parse_file_to_df`: the pandas reader, or the conversion
      the branch does itself, or the exception either raises. */
  function ReadToDf(b: Branch, io: Io): (r: Result<Frame>)
    requires IoWellFormed(io)
    ensures r.Ok? ==> WellFormed(r.value)
    ensures b == Hl7Segments ==> r == Hl7FromText(io.text)
  {
    match b
    case LogTsv => Err(BadLinesKeyword)
    case SqlScript =>
      (match io.text case Ok(t) => Ok(SingleColumn("sql", [t])) case Err(e) => Err(e))
    case PdfText =>
      (match io.pdfPages case Ok(pages) => Ok(SingleColumn("text", [Join(pages, "\n")])) case Err(e) => Err(e))
    case EmlFields =>
      (match io.email
       case Ok(m) => Ok(Frame(["subject", "body"], [Object, Object], [[TextCell(m.0), Text(m.1)]]))
       case Err(e) => Err(e))
    case Hl7Segments => Hl7FromText(io.text)
    case _ => io.read(b)
  }

  /** The HL7 branch: the segment row of the file's text, or the exception
      reading it raised. */
  function Hl7FromText(text: Result<string>): (r: Result<Frame>)
    ensures r.Ok? ==> WellFormed(r.value)
    ensures text.Ok? ==> r == Ok(Hl7Frame(text.value))
    ensures text.Err? ==> r == Err(text.error)
  {
    match text case Ok(t) => Ok(Hl7Frame(t)) case Err(e) => Err(e)
  }

  /** A routed file is read by its branch. */
  lemma ParseToDfOf(p: string, io: Io, b: Branch)
    requires IoWellFormed(io) && ParseToDfRoute(p) == Ok(b)
    ensures ParseFileToDf(p, io) == ReadToDf(b, io)
  {
  }

  /** `parse_file_to_df` handles exactly the twelve supported extensions and
      raises `ValueError` for every other one. */
  lemma ParseToDfAcceptsSupported(p: string)
    ensures ParseToDfRoute(p).Ok? <==> IsSupportedFormat(p)
    ensures ParseToDfRoute(p).Err? ==> ParseToDfRoute(p).error.ValueError?
    ensures Ext(p) == ".log" ==> ParseToDfRoute(p) == Ok(LogTsv)
  {
    ParseToDfBranchAccepts(Ext(p));
  }

  lemma ParseToDfBranchAccepts(ext: string)
    ensures ParseToDfBranch(ext).Ok? <==> ext in SupportedFormats
    ensures ParseToDfBranch(ext).Err? ==> ParseToDfBranch(ext).error.ValueError?
    ensures ext == ".log" ==> ParseToDfBranch(ext) == Ok(LogTsv)
  {
  }

  /** The branch each of the twelve extensions takes. */
  lemma ParseToDfBranchOf(ext: string)
    ensures ext == ".csv" ==> ParseToDfBranch(ext) == Ok(Csv)
    ensures ext == ".xlsx" || ext == ".xls" ==> ParseToDfBranch(ext) == Ok(Excel)
    ensures ext == ".json" ==> ParseToDfBranch(ext) == Ok(JsonNormalize)
    ensures ext == ".txt" ==> ParseToDfBranch(ext) == Ok(Tsv)
    ensures ext == ".parquet" ==> ParseToDfBranch(ext) == Ok(Parquet)
    ensures ext == ".xml" ==> ParseToDfBranch(ext) == Ok(PandasXml)
    ensures ext == ".sql" ==> ParseToDfBranch(ext) == Ok(SqlScript)
    ensures ext == ".pdf" ==> ParseToDfBranch(ext) == Ok(PdfText)
    ensures ext == ".eml" ==> ParseToDfBranch(ext) == Ok(EmlFields)
    ensures ext == ".hl7" ==> ParseToDfBranch(ext) == Ok(Hl7Segments)
  {
  }

  /** The extensions `parse_file_to_df` hands to a pandas reader get that
      reader's table or exception. */
  lemma ParseToDfReads(p: string, io: Io)
    requires IoWellFormed(io)
    ensures Ext(p) == ".csv" ==> ParseFileToDf(p, io) == io.read(Csv)
    ensures Ext(p) == ".xlsx" || Ext(p) == ".xls" ==> ParseFileToDf(p, io) == io.read(Excel)
    ensures Ext(p) == ".json" ==> ParseFileToDf(p, io) == io.read(JsonNormalize)
    ensures Ext(p) == ".txt" ==> ParseFileToDf(p, io) == io.read(Tsv)
    ensures Ext(p) == ".parquet" ==> ParseFileToDf(p, io) == io.read(Parquet)
    ensures Ext(p) == ".xml" ==> ParseFileToDf(p, io) == io.read(PandasXml)
  {
    ParseToDfBranchOf(Ext(p));
  }

  /** An HL7 file becomes the segment row of its text (`Hl7OneRow` states
      what that row holds); a failed read propagates. */
  lemma ParseToDfHl7(p: string, io: Io)
    requires IoWellFormed(io) && Ext(p) == ".hl7"
    ensures io.text.Ok? ==> ParseFileToDf(p, io) == Ok(Hl7Frame(io.text.value))
    ensures io.text.Err? ==> ParseFileToDf(p, io) == Err(io.text.error)
  {
    ParseToDfBranchOf(Ext(p));
    ParseToDfOf(p, io, Hl7Segments);
  }

  /** A failed read of an HL7 or SQL file propagates. */
  lemma ParseToDfTextFails(p: string, io: Io)
    requires IoWellFormed(io) && (Ext(p) == ".hl7" || Ext(p) == ".sql") && io.text.Err?
    ensures ParseFileToDf(p, io) == Err(io.text.error)
  {
    ParseToDfBranchOf(Ext(p));
    TextRouted(p, io, if Ext(p) == ".hl7" then Hl7Segments else SqlScript);
  }

  lemma TextRouted(p: string, io: Io, b: Branch)
    requires IoWellFormed(io) && (b == Hl7Segments || b == SqlScript) && ParseToDfRoute(p) == Ok(b) && io.text.Err?
    ensures ParseFileToDf(p, io) == Err(io.text.error)
  {
    ParseToDfOf(p, io, b);
  }

  /** A PDF becomes one `text` cell holding its pages joined by newlines. */
  lemma ParseToDfPdf(p: string, io: Io)
    requires IoWellFormed(io) && Ext(p) == ".pdf"
    ensures io.pdfPages.Ok? ==>
      ParseFileToDf(p, io) == Ok(Frame(["text"], [Object], [[Text(Join(io.pdfPages.value, "\n"))]]))
    ensures io.pdfPages.Err? ==> ParseFileToDf(p, io) == Err(io.pdfPages.error)
  {
    ParseToDfBranchOf(Ext(p));
    ParseToDfOf(p, io, PdfText);
    if io.pdfPages.Ok? {
      SingleCell("text", Join(io.pdfPages.value, "\n"));
    }
  }

  /** A single-part e-mail becomes one row of its subject and body. */
  lemma ParseToDfEml(p: string, io: Io)
    requires IoWellFormed(io) && Ext(p) == ".eml"
    ensures io.email.Ok? ==>
      ParseFileToDf(p, io) == Ok(Frame(["subject", "body"], [Object, Object],
                                       [[TextCell(io.email.value.0), Text(io.email.value.1)]]))
    ensures io.email.Err? ==> ParseFileToDf(p, io) == Err(io.email.error)
  {
    ParseToDfBranchOf(Ext(p));
    ParseToDfOf(p, io, EmlFields);
  }

  /** A SQL script becomes one row holding the whole text. */
  lemma SqlScriptOneCell(p: string, io: Io)
    requires IoWellFormed(io) && Ext(p) == ".sql" && io.text.Ok?
    ensures ParseFileToDf(p, io) == Ok(Frame(["sql"], [Object], [[Text(io.text.value)]]))
  {
    SingleCell("sql", io.text.value);
  }

  /** The extension the dict-returning `parse_file` branches on:
      `file_path.lower().split('.')[-1]`. */
  function DictExt(p: string): (e: string)
    ensures '.' !in e
  {
    var parts := Split(Lower(p), '.');
    parts[|parts| - 1]
  }

  /** That extension is the text after the last `.` of the whole lower-cased
      path, or the whole lower-cased path when it has no `.`: a suffix of it
      without a `.` that is either all of it or follows a `.`. */
  lemma DictExtAfterLastDot(p: string)
    ensures var l := Lower(p); var e := DictExt(p);
      && EndsWith(l, e) && '.' !in e
      && (|e| == |l| || l[|l| - |e| - 1] == '.')
  {
    var l := Lower(p);
    var n := SplitLast(l, '.');
  }

  /** The dict the second `parse_file` returns. */
  datatype ParseReport =
    | ParsedOk(dataframe: Frame, filePath: string)   // {"status": "success", ...}
    | ParseFailed(error: string)                     // {"status": "error", "dataframe": None, ...}
  {
    function Status(): string {
      if ParsedOk? then "success" else "error"
    }
  }

  /** The dict for one read: the frame and the path, or the reader's message. */
  function ReadReport(read: Result<Frame>, p: string): ParseReport {
    match read
    case Ok(df) => ParsedOk(df, p)
    case Err(e) => ParseFailed("File parsing failed: " + e.msg)
  }

  /** The dict-returning `parse_file`: never raises; a failed read or an
      unsupported extension become an error dict. A CSV that is not valid
      UTF-8 is read again as Latin-1. */
  function ParseFileDict(p: string, io: Io): (r: ParseReport)
    ensures r.ParsedOk? ==> r.filePath == p
  {
    var ext := DictExt(p);
    var read: Option<Result<Frame>> :=
      if ext == "csv" then
        (match io.read(Csv) case Err(UnicodeDecodeError(_)) => Some(io.read(CsvLatin1)) case other => Some(other))
      else if ext == "xls" || ext == "xlsx" then Some(io.read(Excel))
      else if ext == "json" then Some(io.read(ReadJson))
      else if ext == "parquet" then Some(io.read(Parquet))
      else if ext == "txt" then Some(io.read(Tsv))
      else None;
    match read
    case None => ParseFailed("Unsupported file format: " + ext)
    case Some(res) => ReadReport(res, p)
  }

  /** The dict-returning `parse_file` succeeds only for csv, xls, xlsx, json,
      parquet and txt with a successful read, reports an unsupported extension
      by name, and falls back to Latin-1 exactly on a UTF-8 decode failure. */
  lemma ParseFileDictOutcome(p: string, io: Io)
    ensures ParseFileDict(p, io).Status() == "success" ==>
      DictExt(p) in ["csv", "xls", "xlsx", "json", "parquet", "txt"]
    ensures DictExt(p) !in ["csv", "xls", "xlsx", "json", "parquet", "txt"] ==>
      ParseFileDict(p, io) == ParseFailed("Unsupported file format: " + DictExt(p))
    ensures DictExt(p) == "csv" && io.read(Csv).Err? && io.read(Csv).error.UnicodeDecodeError? ==>
      ParseFileDict(p, io) == ReadReport(io.read(CsvLatin1), p)
    ensures DictExt(p) == "csv" && !(io.read(Csv).Err? && io.read(Csv).error.UnicodeDecodeError?) ==>
      ParseFileDict(p, io) == ReadReport(io.read(Csv), p)
    ensures DictExt(p) == "xls" || DictExt(p) == "xlsx" ==> ParseFileDict(p, io) == ReadReport(io.read(Excel), p)
    ensures DictExt(p) == "json" ==> ParseFileDict(p, io) == ReadReport(io.read(ReadJson), p)
    ensures DictExt(p) == "parquet" ==> ParseFileDict(p, io) == ReadReport(io.read(Parquet), p)
    ensures DictExt(p) == "txt" ==> ParseFileDict(p, io) == ReadReport(io.read(Tsv), p)
    ensures DictExt(p) == "xls" || DictExt(p) == "xlsx" ==> (ParseFileDict(p, io).ParsedOk? <==> io.read(Excel).Ok?)
    ensures DictExt(p) == "json" ==> (ParseFileDict(p, io).ParsedOk? <==> io.read(ReadJson).Ok?)
    ensures DictExt(p) == "parquet" ==> (ParseFileDict(p, io).ParsedOk? <==> io.read(Parquet).Ok?)
    ensures DictExt(p) == "txt" ==> (ParseFileDict(p, io).ParsedOk? <==> io.read(Tsv).Ok?)
    ensures DictExt(p) in ["csv", "xls", "xlsx", "json", "parquet", "txt"] && ParseFileDict(p, io).ParseFailed? ==>
      StartsWith(ParseFileDict(p, io).error, "File parsing failed: ")
  {
  }

  /** Every dispatcher is case-insensitive: paths equal up to letter case take
      the same branch everywhere. */
  lemma DispatchCaseInsensitive(p: string, q: string)
    requires Lower(p) == Lower(q)
    ensures Ext(p) == Ext(q)
    ensures IsSupportedFormat(p) == IsSupportedFormat(q)
    ensures ParseFileRoute(p) == ParseFileRoute(q)
    ensures ParseToDfRoute(p) == ParseToDfRoute(q)
    ensures DictExt(p) == DictExt(q)
  {
    ExtCaseInsensitive(p, q);
    DictExtCaseInsensitive(p, q);
  }

  lemma DictExtCaseInsensitive(p: string, q: string)
    requires Lower(p) == Lower(q)
    ensures DictExt(p) == DictExt(q)
  {
    var parts := Split(Lower(p), '.');
    assert DictExt(p) == parts[|parts| - 1] == DictExt(q);
  }

  lemma ExtCaseInsensitive(p: string, q: string)
    requires Lower(p) == Lower(q)
    ensures Ext(p) == Ext(q)
  {
    calc {
      Ext(p);
      Lower(SplitExt(p));
      { SplitExtLower(p); }
      SplitExt(Lower(p));
      SplitExt(Lower(q));
      { SplitExtLower(q); }
      Lower(SplitExt(q));
      Ext(q);
    }
  }

  /** A path whose last component is dots followed by a name without a dot,
      such as `uploads/.csv`, has no extension and is not supported. */
  lemma DotfileNotSupported(dir: string, dots: nat, name: string)
    requires '/' !in name && '.' !in name
    ensures !IsSupportedFormat(dir + "/" + seq(dots, _ => '.') + name)
  {
    DotfileHasNoExt(dir, dots, name);
  }

  /** So is a bare dot-file name such as `.csv`. */
  lemma DotfileNameNotSupported(dots: nat, name: string)
    requires '/' !in name && '.' !in name
    ensures !IsSupportedFormat(seq(dots, _ => '.') + name)
  {
    DotfileNameHasNoExt(dots, name);
  }

  /** `detect_file_format` as written: it tests membership in
      `SUPPORTED_EXTENSIONS`, a name the module never defines, so every call
      raises `NameError`. */
  function DetectFileFormatAsWritten(p: string, mimeGuess: Option<string>): (r: Result<string>)
    ensures r.Err? && r.error.NameError?
  {
    Err(NameError("name 'SUPPORTED_EXTENSIONS' is not defined"))
  }

  /** `validate_file_format` as written: the same undefined name. */
  function ValidateFileFormatAsWritten(filename: string): (r: Result<bool>)
    ensures r.Err? && r.error.NameError?
  {
    Err(NameError("name 'SUPPORTED_EXTENSIONS' is not defined"))
  }

  /** Even a plainly supported file such as `a.csv` makes them fail. */
  lemma DetectFileFormatAlwaysFails()
    ensures IsSupportedFormat("a.csv")
    ensures DetectFileFormatAsWritten("a.csv", None).Err?
    ensures ValidateFileFormatAsWritten("a.csv").Err?
  {
    var p := "a.csv";
    assert LastIndex(p, '/') == -1;
    LastIndexAt(p, 1, '.');
    assert p[0] != '.';
    assert SplitExt(p) == ".csv";
    assert Lower(".csv") == ".csv";
  }

  /** `detect_file_format` with the supported list it evidently means: the
      extension itself when supported, else the MIME type guessed from the
      name (`mimetypes.guess_type`, given as `mimeGuess`), else "unknown". */
  function DetectFileFormat(p: string, mimeGuess: Option<string>): (r: string)
    ensures IsSupportedFormat(p) ==> r == Ext(p)
    ensures !IsSupportedFormat(p) && mimeGuess.Some? && mimeGuess.value != "" ==> r == mimeGuess.value
    ensures !IsSupportedFormat(p) && (mimeGuess.None? || mimeGuess.value == "") ==> r == "unknown"
  {
    var ext := Ext(p);
    if ext in SupportedFormats then ext
    else match mimeGuess
      case Some(m) => if m != "" then m else "unknown"
      case None => "unknown"
  }

  /** `validate_file_format` with the supported list it evidently means. */
  function ValidateFileFormat(filename: string): (ok: bool)
    ensures ok <==> Ext(filename) in SupportedFormats
  {
    IsSupportedFormat(filename)
  }

  /** `open(path).readlines()`: the text cut after every newline, each line
      keeping its newline; a last line without one is kept as it is. */
  function ReadLines(t: string): (lines: seq<string>)
    decreases |t|
  {
    if |t| == 0 then []
    else
      var i := IndexOf(t, '\n');
      if i < 0 then [t] else [t[..i + 1]] + ReadLines(t[i + 1..])
  }

  /** Concatenation of the parts, in order. */
  function Concat(parts: seq<string>): string {
    if |parts| == 0 then [] else parts[0] + Concat(parts[1..])
  }

  /** A line as `readlines` cuts it: not empty, no newline before its end. */
  predicate IsLine(l: string) {
    |l| > 0 && '\n' !in l[..|l| - 1]
  }

  /** A line that ends in its newline. */
  predicate IsFullLine(l: string) {
    IsLine(l) && l[|l| - 1] == '\n'
  }

  lemma ReadLinesUnfold(t: string)
    requires |t| > 0 && IndexOf(t, '\n') >= 0
    ensures ReadLines(t) == [t[..IndexOf(t, '\n') + 1]] + ReadLines(t[IndexOf(t, '\n') + 1..])
  {
  }

  /** The lines put back together give the text. */
  lemma {:induction false} ReadLinesPartition(t: string)
    ensures Concat(ReadLines(t)) == t
    decreases |t|
  {
    var i := IndexOf(t, '\n');
    if |t| > 0 && i >= 0 {
      var h, rest := t[..i + 1], t[i + 1..];
      assert Concat(ReadLines(rest)) == rest by {
        ReadLinesPartition(rest);
      }
      assert ReadLines(t) == [h] + ReadLines(rest) by {
        ReadLinesUnfold(t);
      }
      ConcatCons(h, ReadLines(rest));
      assert t == h + rest;
    } else if |t| > 0 {
      assert ReadLines(t) == [t];
      ConcatCons(t, []);
    }
  }

  lemma ConcatCons(h: string, rest: seq<string>)
    ensures Concat([h] + rest) == h + Concat(rest)
  {
    assert ([h] + rest)[1..] == rest;
  }

  /** Every line is a line; every line but the last ends in its newline (the
      last one may or may not). */
  lemma {:induction false} ReadLinesShape(t: string)
    ensures forall k :: 0 <= k < |ReadLines(t)| ==> IsLine(ReadLines(t)[k])
    ensures forall k :: 0 <= k < |ReadLines(t)| - 1 ==> IsFullLine(ReadLines(t)[k])
    decreases |t|
  {
    var i := IndexOf(t, '\n');
    if |t| > 0 && i >= 0 {
      var rest := t[i + 1..];
      ReadLinesShape(rest);
      var h := t[..i + 1];
      assert IsFullLine(h) by {
        assert h[..i] == t[..i];
      }
      ReadLinesUnfold(t);
      ConsLines(h, ReadLines(rest));
    } else if |t| > 0 {
      assert ReadLines(t) == [t];
      assert IsLine(t) by {
        assert forall k :: 0 <= k < |t| - 1 ==> t[..|t| - 1][k] == t[k];
      }
    }
  }

  lemma ConsLines(h: string, rest: seq<string>)
    requires IsFullLine(h)
    requires forall k :: 0 <= k < |rest| ==> IsLine(rest[k])
    requires forall k :: 0 <= k < |rest| - 1 ==> IsFullLine(rest[k])
    ensures var lines := [h] + rest; forall k :: 0 <= k < |lines| ==> IsLine(lines[k])
    ensures var lines := [h] + rest; forall k :: 0 <= k < |lines| - 1 ==> IsFullLine(lines[k])
  {
    var lines := [h] + rest;
    forall k | 1 <= k < |lines| ensures lines[k] == rest[k - 1] { }
  }

  /** `parse_log_file`: one row per line of the file, newline included, in a
      column named `log_lines`. */
  function ParseLogFile(io: Io): (r: Result<Frame>)
    ensures r.Ok? ==> WellFormed(r.value) && r.value.columns == ["log_lines"]
    ensures r.Ok? <==> io.text.Ok?
    ensures r.Ok? ==> |r.value.rows| == |ReadLines(io.text.value)|
    ensures r.Ok? ==> forall k :: 0 <= k < |r.value.rows| ==> r.value.rows[k] == [Text(ReadLines(io.text.value)[k])]
  {
    match io.text
    case Ok(t) => Ok(SingleColumn("log_lines", ReadLines(t)))
    case Err(e) => Err(e)
  }

  /** `parse_sql_file`: the whole script in one cell of a column `sql_query`. */
  function ParseSqlFile(io: Io): (r: Result<Frame>)
    ensures r.Err? <==> io.text.Err?
    ensures r.Ok? ==> r.value == Frame(["sql_query"], [Object], [[Text(io.text.value)]])
  {
    match io.text
    case Ok(t) => SingleCell("sql_query", t); Ok(SingleColumn("sql_query", [t]))
    case Err(e) => Err(e)
  }

  /** `parse_xml_file`, `parse_hl7_file` and `parse_eml_file`: the whole text in
      one cell of the named column. */
  function ParseRawTextFile(column: string, io: Io): (r: Result<Frame>)
    requires column in ["xml_data", "hl7_data", "email_text"]
    ensures r.Err? <==> io.text.Err?
    ensures r.Ok? ==> r.value == Frame([column], [Object], [[Text(io.text.value)]])
  {
    match io.text
    case Ok(t) => SingleCell(column, t); Ok(SingleColumn(column, [t]))
    case Err(e) => Err(e)
  }
}
