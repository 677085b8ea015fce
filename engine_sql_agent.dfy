/**
 * The `ask` of data_engine/sql_agent.py, with its `query` and `run` aliases:
 * one pass that lists the tables as one `Table `<name>`: col (type), ...`
 * line each, sends its own prompt, takes the reply with its backticks
 * trimmed as the SQL, runs it, and returns `(rows, sql, explanation)` or,
 * on any exception, `([], "", message)`. The rest of that class is the
 * shared code of module SqlText.
 */
module EngineSqlAgent {
  import opened Results
  import opened Text
  import opened Dicts
  import opened Frames
  import opened SqlText

  // ---------------------------------------------------------------------------
  // schema_info

  /** `f"{col[1]} ({col[2]})"`. */
  function ColumnInfo(c: (string, string)): string {
    c.0 + " (" + c.1 + ")"
  }

  /** ``Table `<name>`: c1 (t1), c2 (t2)``: the columns joined by ", ". */
  function InfoLine(t: Table): (line: string)
    ensures StartsWith(line, "Table `" + t.name + "`: ")
  {
    var head := "Table `" + t.name + "`: ";
    var line := head + Join(ColumnInfos(t), ", ");
    assert line[..|head|] == head;
    line
  }

  /** `[f"{col[1]} ({col[2]})" for col in columns]`. */
  function ColumnInfos(t: Table): (infos: seq<string>)
    ensures |infos| == |t.columns|
    ensures forall k :: 0 <= k < |t.columns| ==> infos[k] == ColumnInfo(t.columns[k])
  {
    seq(|t.columns|, k requires 0 <= k < |t.columns| => ColumnInfo(t.columns[k]))
  }

  /** One line per table, in the order the database lists them. */
  function InfoLines(ts: seq<Table>): (lines: seq<string>)
    ensures |lines| == |ts|
    ensures forall t :: 0 <= t < |ts| ==> lines[t] == InfoLine(ts[t])
  {
    seq(|ts|, t requires 0 <= t < |ts| => InfoLine(ts[t]))
  }

  /** The loop of `ask` that builds `schema_info`: each table's line
      followed by a newline. */
  method BuildSchemaInfo(ts: seq<Table>) returns (info: string)
    ensures info == Terminated(InfoLines(ts))
  {
    info := "";
    var t := 0;
    while t < |ts|
      invariant 0 <= t <= |ts|
      invariant info == Terminated(InfoLines(ts[..t]))
    {
      assert InfoLines(ts[..t + 1]) == InfoLines(ts[..t]) + [InfoLine(ts[t])];
      TerminatedConcat(InfoLines(ts[..t]), [InfoLine(ts[t])]);
      info := info + InfoLine(ts[t]) + "\n";
      t := t + 1;
    }
    assert ts[..t] == ts;
  }

  /** Splitting `schema_info` at its newlines gives back exactly one line
      per table, each starting ``Table `<name>`: ``, then the empty text
      after the final newline (when no name or type holds a newline). */
  lemma SchemaInfoLines(ts: seq<Table>)
    requires NoNewlines(ts)
    ensures var parts := Split(Terminated(InfoLines(ts)), '\n');
      && |parts| == |ts| + 1
      && parts[|ts|] == ""
      && (forall t :: 0 <= t < |ts| ==>
            parts[t] == InfoLine(ts[t]) && StartsWith(parts[t], "Table `" + ts[t].name + "`: "))
  {
    forall t | 0 <= t < |ts| ensures '\n' !in InfoLine(ts[t]) {
      NoNewlineInInfoLine(ts, t);
    }
    TerminatedSplit(InfoLines(ts));
  }

  lemma NoNewlineInInfoLine(ts: seq<Table>, t: nat)
    requires NoNewlines(ts) && t < |ts|
    ensures '\n' !in InfoLine(ts[t])
  {
    var cols := ts[t].columns;
    var infos := ColumnInfos(ts[t]);
    forall k | 0 <= k < |infos| ensures '\n' !in infos[k] {
      assert '\n' !in cols[k].0 && '\n' !in cols[k].1;
      assert infos[k] == cols[k].0 + " (" + cols[k].1 + ")";
    }
    JoinAvoids(infos, ", ", '\n');
    var head := "Table `" + ts[t].name + "`: ";
    assert '\n' !in ts[t].name;
    assert '\n' !in head;
    assert InfoLine(ts[t]) == head + Join(infos, ", ");
  }

  /** Joining pieces that avoid a character with a separator that avoids it
      gives a text that avoids it. */
  lemma {:induction false} JoinAvoids(parts: seq<string>, sep: string, c: char)
    requires c !in sep && forall k :: 0 <= k < |parts| ==> c !in parts[k]
    ensures c !in Join(parts, sep)
  {
    if |parts| > 1 {
      JoinAvoids(parts[1..], sep, c);
    }
  }

  // ---------------------------------------------------------------------------
  // The prompt

  const InfoOpening: string :=
    "\nYou are a data analyst assistant. Based on the SQLite database schema below, "
    + "write an accurate SQL query that answers the user's question.\n\nSchema:\n"
  const InfoMiddle: string := "\n\nUser Question: "
  const InfoClosing: string := "\n\nReturn only the SQL query.\n            "

  /** The prompt `ask` builds: the fixed request with `schema_info` and then
      the question placed verbatim. */
  function EnginePrompt(question: string, info: string): (p: string)
    ensures StartsWith(p, InfoOpening) && EndsWith(p, InfoClosing)
    ensures OccursAt(p, info, |InfoOpening|)
    ensures OccursAt(p, question, |InfoOpening| + |info| + |InfoMiddle|)
    ensures |p| == |InfoOpening| + |info| + |InfoMiddle| + |question| + |InfoClosing|
  {
    var p := InfoOpening + info + InfoMiddle + question + InfoClosing;
    assert p[..|InfoOpening|] == InfoOpening;
    assert p[|p| - |InfoClosing|..] == InfoClosing;
    p
  }

  /** For given schema information, different questions give different
      prompts. */
  lemma EnginePromptDeterminesQuestion(q1: string, q2: string, info: string)
    ensures EnginePrompt(q1, info) == EnginePrompt(q2, info) <==> q1 == q2
  {
    if EnginePrompt(q1, info) == EnginePrompt(q2, info) {
      var p := EnginePrompt(q1, info);
      var at := |InfoOpening| + |info| + |InfoMiddle|;
      assert |q1| == |q2|;
      assert q1 == p[at..at + |q1|] == q2;
    }
  }

  // ---------------------------------------------------------------------------
  // The SQL taken from the reply

  /** `content.strip().strip("`")`. */
  function SqlFromReply(content: string): (sql: string)
    ensures sql == [] || (sql[0] != '`' && sql[|sql| - 1] != '`')
  {
    StripChar(Strip(content), '`')
  }

  /** The SQL is the stretch of the stripped reply that starts at index
      `i`, with only backticks cut off at either end. */
  lemma SqlFromReplyCuts(content: string) returns (i: nat)
    ensures var s := Strip(content);
      var sql := SqlFromReply(content);
      && OccursAt(s, sql, i)
      && (forall k :: 0 <= k < i ==> s[k] == '`')
      && (forall k :: i + |sql| <= k < |s| ==> s[k] == '`')
  {
    i := StripCharCuts(Strip(content), '`');
  }

  lemma StripCharCuts(s: string, c: char) returns (i: nat)
    ensures var r := StripChar(s, c);
      && OccursAt(s, r, i)
      && (forall k :: 0 <= k < i ==> s[k] == c)
      && (forall k :: i + |r| <= k < |s| ==> s[k] == c)
  {
    var l := LStripChar(s, c);
    var r := RStripChar(l, c);
    assert r == StripChar(s, c);
    i := |s| - |l|;
    assert s[i..] == l;
    assert s[i..i + |r|] == l[..|r|];
    forall k | i + |r| <= k < |s| ensures s[k] == c {
      assert s[k] == l[k - i];
    }
  }

  /** Whitespace inside the backticks survives: the reply "` select 1 `"
      yields " select 1 ", which starts and ends with a space. */
  lemma BackticksKeepInnerSpace()
    ensures SqlFromReply("` select 1 `") == " select 1 "
  {
    var c := "` select 1 `";
    assert Stripped(c);
    StripStripped(c);
    var l := c[1..];
    assert LStripChar(c, '`') == l by {
      assert l[0] == ' ';
    }
    assert RStripChar(l, '`') == l[..|l| - 1] by {
      assert l[..|l| - 1][|l| - 2] == ' ';
    }
    assert l[..|l| - 1] == " select 1 ";
  }

  // ---------------------------------------------------------------------------
  // ask, query and run

  /** What `cursor.execute(sql)` leaves: the column names of
      `cursor.description` (none for a statement that returns no rows, such
      as an UPDATE) and the fetched rows. */
  datatype Executed = Executed(description: Option<seq<string>>, rows: seq<seq<Cell>>)

  /** `zip(a, b)`: pairs up to the shorter length. */
  function Zip(a: seq<string>, b: seq<Cell>): (z: seq<(string, Cell)>)
    ensures |z| == if |a| <= |b| then |a| else |b|
    ensures forall k :: 0 <= k < |z| ==> z[k] == (a[k], b[k])
  {
    var n := if |a| <= |b| then |a| else |b|;
    seq(n, k requires 0 <= k < n => (a[k], b[k]))
  }

  /** `[dict(zip(columns, row)) for row in rows]`. */
  function Records(columns: seq<string>, rows: seq<seq<Cell>>): (rs: seq<Row>)
    ensures |rs| == |rows|
  {
    seq(|rows|, i requires 0 <= i < |rows| => FromPairs(Zip(columns, rows[i])))
  }

  /** A row as wide as the distinct column names becomes the record mapping
      each column to its cell, keys in column order. */
  lemma RecordCells(columns: seq<string>, rows: seq<seq<Cell>>, i: nat, j: nat)
    requires Seqs.Distinct(columns) && i < |rows| && |rows[i]| == |columns| && j < |columns|
    ensures Keys(Records(columns, rows)[i]) == columns
    ensures Get(Records(columns, rows)[i], columns[j]) == Some(rows[i][j])
  {
    var z := Zip(columns, rows[i]);
    assert Keys(z) == columns;
    FromPairsKeys(z);
    Seqs.DedupOfDistinct(columns);
    FromPairsDistinctGet(z, j);
  }

  /** What `ask` returns: the result rows, the SQL and the explanation. */
  type Answer = (seq<Row>, string, string)

  /** The tuple of an `except` branch: a `sqlite3.Error` is reported as
      such, anything else as a failure to process the query. */
  function Failed(e: Exception): (a: Answer)
    ensures a.0 == [] && a.1 == ""
    ensures e.SqliteError? ==> a.2 == "SQLite error: " + e.msg
    ensures !e.SqliteError? ==> a.2 == "Failed to process query: " + e.msg
  {
    ([], "", if e.SqliteError? then "SQLite error: " + e.msg else "Failed to process query: " + e.msg)
  }

  /** Iterating over a missing `cursor.description`. */
  const NoDescription: Exception := OtherError("'NoneType' object is not iterable")

  /** What `ask(question, table_name)` returns once the tables are listed as
      `tables` (a listing error included), the endpoint replies `post(model,
      prompt)` (the message content, or the exception getting it raises) and
      the database runs statements as `exec`. */
  function AskOutcome(agent: Agent, question: string, tables: Result<seq<Table>>,
                      post: (string, string) -> Result<string>, exec: string -> Result<Executed>): Answer
  {
    match tables
    case Err(e) => Failed(e)
    case Ok(ts) => Answered(post(agent.model, EnginePrompt(question, Terminated(InfoLines(ts)))), exec)
  }

  /** The rest of `ask` once the reply has come back. */
  function Answered(content: Result<string>, exec: string -> Result<Executed>): Answer {
    match content
    case Err(e) => Failed(e)
    case Ok(c) =>
      var sql := SqlFromReply(c);
      match exec(sql)
      case Err(e) => Failed(e)
      case Ok(x) =>
        match x.description
        case None => Failed(NoDescription)
        case Some(columns) => (Records(columns, x.rows), sql, Explanation(sql))
  }

  /** `f"SQL generated based on schema: {sql_query}"`. */
  function Explanation(sql: string): (t: string)
    ensures StartsWith(t, "SQL generated based on schema: ") && EndsWith(t, sql)
  {
    var t := "SQL generated based on schema: " + sql;
    assert t[|t| - |sql|..] == sql;
    t
  }

  /** An error message is never an explanation, so the two outcomes of
      `ask` cannot be confused. */
  lemma FailedIsNoAnswer(e: Exception, sql: string)
    ensures Failed(e).2 != Explanation(sql)
    ensures StartsWith(Failed(e).2, "SQLite error: ") || StartsWith(Failed(e).2, "Failed to process query: ")
  {
    var m := Failed(e).2;
    if e.SqliteError? {
      assert m[3] == 'i' && Explanation(sql)[3] == ' ';
      assert m[..14] == "SQLite error: ";
    } else {
      assert m[0] == 'F' && Explanation(sql)[0] == 'S';
      assert m[..25] == "Failed to process query: ";
    }
  }

  /** Once the reply is in, `ask` either fails with no rows, no SQL and a
      message naming a database error or another failure, or answers with
      the reply's text trimmed of backticks as its SQL, an explanation
      quoting it and one record per fetched row. */
  lemma AnsweredShape(content: Result<string>, exec: string -> Result<Executed>)
    ensures var a := Answered(content, exec);
      || (&& a.0 == [] && a.1 == "" && a.2 != Explanation(a.1)
          && (StartsWith(a.2, "SQLite error: ") || StartsWith(a.2, "Failed to process query: ")))
      || (&& a.2 == Explanation(a.1)
          && content.Ok? && a.1 == SqlFromReply(content.value)
          && exec(a.1).Ok? && exec(a.1).value.description.Some?
          && a.0 == Records(exec(a.1).value.description.value, exec(a.1).value.rows))
  {
    match content
    case Err(e) => FailedIsNoAnswer(e, "");
    case Ok(c) =>
      var sql := SqlFromReply(c);
      match exec(sql)
      case Err(e) => FailedIsNoAnswer(e, "");
      case Ok(x) =>
        if x.description.None? {
          FailedIsNoAnswer(NoDescription, "");
        }
  }

  /** `ask(question, table_name)`; `table_name` is not used. */
  method Ask(agent: Agent, question: string, tableName: string, tables: Result<seq<Table>>,
             post: (string, string) -> Result<string>, exec: string -> Result<Executed>)
    returns (result: seq<Row>, sql: string, explanation: string)
    ensures (result, sql, explanation) == AskOutcome(agent, question, tables, post, exec)
  {
    if tables.Err? {
      result, sql, explanation := Failed(tables.error).0, "", Failed(tables.error).2;
      return;
    }
    var info := BuildSchemaInfo(tables.value);
    var prompt := EnginePrompt(question, info);
    var content := post(agent.model, prompt);
    if content.Err? {
      result, sql, explanation := [], "", Failed(content.error).2;
      return;
    }
    var query := SqlFromReply(content.value);
    var executed := exec(query);
    if executed.Err? {
      result, sql, explanation := [], "", Failed(executed.error).2;
      return;
    }
    if executed.value.description.None? {
      result, sql, explanation := [], "", Failed(NoDescription).2;
      return;
    }
    result := Records(executed.value.description.value, executed.value.rows);
    sql := query;
    explanation := Explanation(sql);
  }

  /** `query(question, table_name)`: exactly what `ask` returns. */
  method Query(agent: Agent, question: string, tableName: string, tables: Result<seq<Table>>,
               post: (string, string) -> Result<string>, exec: string -> Result<Executed>)
    returns (result: seq<Row>, sql: string, explanation: string)
    ensures (result, sql, explanation) == AskOutcome(agent, question, tables, post, exec)
  {
    result, sql, explanation := Ask(agent, question, tableName, tables, post, exec);
  }

  /** `run(question, table_name)`: exactly what `ask` returns. */
  method Run(agent: Agent, question: string, tableName: string, tables: Result<seq<Table>>,
             post: (string, string) -> Result<string>, exec: string -> Result<Executed>)
    returns (result: seq<Row>, sql: string, explanation: string)
    ensures (result, sql, explanation) == AskOutcome(agent, question, tables, post, exec)
  {
    result, sql, explanation := Ask(agent, question, tableName, tables, post, exec);
  }

  /** `ask` never raises: it either fails with no rows, no SQL and a message
      naming a database error or another failure, or answers with SQL that
      has no backtick at either end, an explanation quoting it, and the
      fetched rows as records. */
  lemma AskShape(agent: Agent, question: string, tables: Result<seq<Table>>,
                 post: (string, string) -> Result<string>, exec: string -> Result<Executed>)
    ensures var a := AskOutcome(agent, question, tables, post, exec);
      || (&& a.0 == [] && a.1 == ""
          && (StartsWith(a.2, "SQLite error: ") || StartsWith(a.2, "Failed to process query: ")))
      || (&& a.2 == Explanation(a.1)
          && (a.1 == [] || (a.1[0] != '`' && a.1[|a.1| - 1] != '`'))
          && exec(a.1).Ok? && exec(a.1).value.description.Some?
          && a.0 == Records(exec(a.1).value.description.value, exec(a.1).value.rows))
  {
    match tables
    case Err(e) => FailedIsNoAnswer(e, "");
    case Ok(ts) =>
      AnsweredShape(post(agent.model, EnginePrompt(question, Terminated(InfoLines(ts)))), exec);
  }

  /** Unlike `get_schema`, `ask` does not refuse a database without tables:
      it sends the prompt with empty schema information and goes on. */
  lemma AskOnEmptyDatabase(agent: Agent, question: string,
                           post: (string, string) -> Result<string>, exec: string -> Result<Executed>)
    ensures AskOutcome(agent, question, Ok([]), post, exec) == Answered(post(agent.model, EnginePrompt(question, "")), exec)
  {
    assert Terminated(InfoLines([])) == "";
  }

  /** The model is shown the schema information and the question verbatim,
      and a successful answer's SQL is the trimmed reply to that prompt. */
  lemma AskPrompt(agent: Agent, question: string, ts: seq<Table>,
                  post: (string, string) -> Result<string>, exec: string -> Result<Executed>)
    ensures var info := Terminated(InfoLines(ts));
      var prompt := EnginePrompt(question, info);
      var a := AskOutcome(agent, question, Ok(ts), post, exec);
      && OccursAt(prompt, info, |InfoOpening|)
      && OccursAt(prompt, question, |InfoOpening| + |info| + |InfoMiddle|)
      && (a.2 == Explanation(a.1) ==>
            post(agent.model, prompt).Ok? && a.1 == SqlFromReply(post(agent.model, prompt).value))
  {
    var prompt := EnginePrompt(question, Terminated(InfoLines(ts)));
    AnsweredShape(post(agent.model, prompt), exec);
  }
}
