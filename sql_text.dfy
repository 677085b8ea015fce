/**
 * The parts of the `NL2SQLAgent` class that sql_agent.py and
 * data_engine/sql_agent.py share word for word: the API-key check of the
 * constructor, `_extract_sql`, `get_schema`, `generate_prompt`, `call_llm`
 * and `execute_sql`. The database, the HTTP endpoint and the query engine
 * are parameters.
 */
module SqlText {
  import opened Results
  import opened Text
  import opened Dicts
  import opened Frames

  // ---------------------------------------------------------------------------
  // The agent

  /** What `__init__` keeps: the database path, the model name and the key. */
  datatype Agent = Agent(dbPath: string, model: string, apiKey: string)

  /** `NL2SQLAgent(db_path, model)` with `apiKey` the value of the
      environment variable OPENROUTER_API_KEY: an unset or empty key raises. */
  function NewAgent(dbPath: string, model: string, apiKey: Option<string>): (r: Result<Agent>)
    ensures r.Ok? <==> apiKey.Some? && apiKey.value != ""
    ensures r.Ok? ==> r.value == Agent(dbPath, model, apiKey.value)
    ensures r.Err? ==> r.error.EnvironmentError?
  {
    match apiKey
    case Some(k) =>
      if k == "" then Err(EnvironmentError("\U{274C} OPENROUTER_API_KEY not set in environment variables."))
      else Ok(Agent(dbPath, model, k))
    case None => Err(EnvironmentError("\U{274C} OPENROUTER_API_KEY not set in environment variables."))
  }

  // ---------------------------------------------------------------------------
  // _extract_sql

  const NotSelect: Exception := ValueError("Generated query is not a valid SELECT statement.")

  /** The content stripped and, when it opens with a ```sql fence, with
      every "```sql" and then every "```" deleted and stripped again. */
  function Defenced(content: string): (c: string)
    ensures Stripped(c)
    ensures !StartsWith(Strip(content), "```sql") ==> c == Strip(content)
    ensures StartsWith(Strip(content), "```sql") ==> !Contains(c, "```")
  {
    var s := Strip(content);
    if StartsWith(s, "```sql") then
      var t := ReplaceAll(ReplaceAll(s, "```sql", ""), "```", "");
      NoFenceLeft(ReplaceAll(s, "```sql", ""));
      StripAvoids(t, "```");
      Strip(t)
    else s
  }

  /** Deleting every "```" leaves none behind: each run of backticks shrinks
      to fewer than three, and runs are never joined. */
  lemma {:induction false} NoFenceLeft(s: string)
    ensures !Contains(ReplaceAll(s, "```", ""), "```")
    decreases |s|
  {
    if StartsWith(s, "```") {
      assert ReplaceAll(s, "```", "") == ReplaceAll(s[3..], "```", "");
      NoFenceLeft(s[3..]);
    } else if |s| > 0 {
      var rest := ReplaceAll(s[1..], "```", "");
      NoFenceLeft(s[1..]);
      assert !StartsWith([s[0]] + rest, "```") by {
        if s[0] == '`' && |s| > 1 {
          if s[1] != '`' {
            ReplaceAllHead(s[1..], "```", "");
            assert ([s[0]] + rest)[1] == s[1];
          } else {
            assert !StartsWith(s[1..], "```") by {
              assert |s| < 3 || s[2] != '`';
            }
            assert rest == [s[1]] + ReplaceAll(s[2..], "```", "");
            if |s| > 2 {
              ReplaceAllHead(s[2..], "```", "");
              assert ([s[0]] + rest)[2] == s[2];
            }
          }
        }
      }
      ConsAvoids(s[0], rest, "```");
    }
  }

  /** A query without backticks wrapped in a ```sql fence comes back
      stripped: the fence and the newlines around the query go. */
  lemma DefencedFencedQuery(q: string)
    requires '`' !in q
    ensures Defenced("```sql\n" + q + "\n```") == Strip(q)
  {
    var content := "```sql\n" + q + "\n```";
    var m := ['\n'] + q + ['\n'];
    assert content == "```sql" + m + "```";
    assert Stripped(content) by {
      assert content[0] == '`' && content[|content| - 1] == '`';
    }
    StripStripped(content);
    assert StartsWith(content, "```sql") by {
      assert content[..6] == "```sql";
    }
    FenceRemoval(m);
    StripSurrounded(q, '\n', '\n');
  }

  /** Deleting the fence words from fenced text without backticks leaves
      exactly the text between the fences. */
  lemma FenceRemoval(m: string)
    requires '`' !in m
    ensures ReplaceAll(ReplaceAll("```sql" + m + "```", "```sql", ""), "```", "") == m
  {
    var content := "```sql" + m + "```";
    assert StartsWith(content, "```sql") by {
      assert content[..6] == "```sql";
    }
    assert content[6..] == m + "```";
    assert ReplaceAll(content, "```sql", "") == ReplaceAll(m + "```", "```sql", "");
    ReplaceAllPlain(m, "```", "```sql", "");
    ReplaceAllShort("```", "```sql", "");
    ReplaceAllPlain(m, "```", "```", "");
    assert ReplaceAll("```", "```", "") == [] by {
      assert "```"[3..] == [];
    }
    assert m + [] == m;
  }

  /** So `_extract_sql` gives the same answer for a fenced query as for the
      bare query. */
  lemma ExtractSqlFenced(q: string)
    requires '`' !in q
    ensures ExtractSql("```sql\n" + q + "\n```") == ExtractSql(q)
  {
    DefencedFencedQuery(q);
    DefencedNoBacktick(q);
    ExtractSqlByDefenced("```sql\n" + q + "\n```", q);
  }

  /** A text without backticks has no fence to take off. */
  lemma DefencedNoBacktick(q: string)
    requires '`' !in q
    ensures Defenced(q) == Strip(q)
  {
    var t := Strip(q);
    var i := StripIsSlice(q);
    assert !StartsWith(t, "```sql") by {
      if |t| >= 6 {
        assert t[0] == q[i] != '`';
        assert t[..6][0] == t[0];
      }
    }
  }

  /** `_extract_sql` sees its input only through the de-fenced text. */
  lemma ExtractSqlByDefenced(a: string, b: string)
    requires Defenced(a) == Defenced(b)
    ensures ExtractSql(a) == ExtractSql(b)
  {
  }

  /** `_extract_sql(content)`: the de-fenced content with its trailing
      semicolons removed, provided it begins with "select" in any case;
      otherwise `ValueError`. */
  function ExtractSql(content: string): (r: Result<string>)
    ensures r.Err? <==> !StartsWith(Lower(Defenced(content)), "select")
    ensures r.Err? ==> r.error == NotSelect
    ensures r.Ok? ==> StartsWith(Lower(r.value), "select") && !EndsWith(r.value, ";")
    ensures r.Ok? ==> StartsWith(Defenced(content), r.value)
    ensures r.Ok? ==> forall k :: |r.value| <= k < |Defenced(content)| ==> Defenced(content)[k] == ';'
  {
    var c := Defenced(content);
    if !StartsWith(Lower(c), "select") then Err(NotSelect)
    else
      StripStripped(c);
      SelectSurvivesSemicolons(c);
      Ok(RStripChar(Strip(c), ';'))
  }

  /** Cutting trailing semicolons off a text that begins with "select" in
      any case keeps that beginning. */
  lemma SelectSurvivesSemicolons(c: string)
    requires StartsWith(Lower(c), "select")
    ensures StartsWith(Lower(RStripChar(c, ';')), "select")
  {
    var q := RStripChar(c, ';');
    assert LowerChar(c[5]) == 't' by {
      assert Lower(c)[5] == "select"[5];
    }
    assert |q| > 5;
    assert Lower(q)[..6] == Lower(c)[..6];
  }

  /** A reply without a leading fence is only stripped and cut at its
      trailing semicolons: the fence words inside it are kept. */
  lemma ExtractSqlUnfenced(content: string)
    requires !StartsWith(Strip(content), "```sql")
    ensures ExtractSql(content).Ok? ==> StartsWith(Strip(content), ExtractSql(content).value)
    ensures ExtractSql(content).Ok? <==> StartsWith(Lower(Strip(content)), "select")
  {
  }

  /** Only the trailing semicolons go: a space before them stays. */
  lemma ExtractSqlKeepsInnerSpace()
    ensures ExtractSql("select 1 ;;") == Ok("select 1 ")
  {
    var c := "select 1 ;;";
    StripStripped(c);
    assert !StartsWith(c, "```sql") by {
      assert c[0] != '`';
    }
    assert Defenced(c) == c;
    assert Lower(c)[..6] == "select" by {
      assert forall k :: 0 <= k < 6 ==> Lower(c)[k] == LowerChar(c[k]);
    }
    assert RStripChar(c, ';') == "select 1 " by {
      assert c[..|c| - 1] == "select 1 ;";
      assert "select 1 ;"[..9] == "select 1 ";
      assert "select 1 "[8] == ' ';
    }
  }

  // ---------------------------------------------------------------------------
  // Text made of lines

  /** Each line followed by a newline. */
  function Terminated(lines: seq<string>): string {
    if |lines| == 0 then [] else lines[0] + "\n" + Terminated(lines[1..])
  }

  lemma {:induction false} TerminatedConcat(a: seq<string>, b: seq<string>)
    ensures Terminated(a + b) == Terminated(a) + Terminated(b)
  {
    if |a| > 0 {
      assert (a + b)[1..] == a[1..] + b;
      TerminatedConcat(a[1..], b);
    } else {
      assert a + b == b;
    }
  }

  /** Splitting newline-terminated lines that hold no newline gives the lines
      back, followed by the empty text after the last newline. */
  lemma {:induction false} TerminatedSplit(lines: seq<string>)
    requires forall k :: 0 <= k < |lines| ==> '\n' !in lines[k]
    ensures Split(Terminated(lines), '\n') == lines + [""]
  {
    if |lines| > 0 {
      var s := Terminated(lines);
      var rest := Terminated(lines[1..]);
      assert s == lines[0] + "\n" + rest;
      assert IndexOf(s, '\n') == |lines[0]| by {
        assert s[|lines[0]|] == '\n';
        forall k | 0 <= k < |lines[0]| ensures s[k] != '\n' {
          assert s[k] == lines[0][k];
        }
      }
      assert s[..|lines[0]|] == lines[0];
      assert s[|lines[0]| + 1..] == rest;
      TerminatedSplit(lines[1..]);
    }
  }

  // ---------------------------------------------------------------------------
  // get_schema

  /** A table as `PRAGMA table_info` describes it: its name and each column's
      name and declared type (fields 1 and 2 of a row). */
  datatype Table = Table(name: string, columns: seq<(string, string)>)

  /** ` - <col> (<type>)`. */
  function ColumnLine(c: (string, string)): string {
    " - " + c.0 + " (" + c.1 + ")"
  }

  /** The lines one table adds: a blank line, `Table: <name>`, then one line
      per column. */
  function TableLines(t: Table): (lines: seq<string>)
    ensures |lines| == 2 + |t.columns|
  {
    ["", "Table: " + t.name] + seq(|t.columns|, k requires 0 <= k < |t.columns| => ColumnLine(t.columns[k]))
  }

  /** The lines of all tables, in order. */
  function SchemaLines(ts: seq<Table>): seq<string> {
    if |ts| == 0 then [] else TableLines(ts[0]) + SchemaLines(ts[1..])
  }

  lemma {:induction false} SchemaLinesConcat(a: seq<Table>, b: seq<Table>)
    ensures SchemaLines(a + b) == SchemaLines(a) + SchemaLines(b)
  {
    if |a| > 0 {
      assert (a + b)[1..] == a[1..] + b;
      SchemaLinesConcat(a[1..], b);
    } else {
      assert a + b == b;
    }
  }

  /** The loop of `get_schema`: for each table, "\nTable: <name>\n" and then
      " - <col> (<type>)\n" for each of its columns, appended to `schema`. */
  method BuildSchema(ts: seq<Table>) returns (schema: string)
    ensures schema == Terminated(SchemaLines(ts))
  {
    schema := "";
    var t := 0;
    while t < |ts|
      invariant 0 <= t <= |ts|
      invariant schema == Terminated(SchemaLines(ts[..t]))
    {
      var table := ts[t];
      ghost var before := Terminated(SchemaLines(ts[..t]));
      schema := schema + "\nTable: " + table.name + "\n";
      assert Terminated(TableLines(table)[..2]) == "\nTable: " + table.name + "\n" by {
        var head := TableLines(table)[..2];
        assert head == ["", "Table: " + table.name];
        assert head[1..][1..] == [];
      }
      var c := 0;
      while c < |table.columns|
        invariant 0 <= c <= |table.columns|
        invariant schema == before + Terminated(TableLines(table)[..c + 2])
      {
        TerminatedConcat(TableLines(table)[..c + 2], [ColumnLine(table.columns[c])]);
        assert TableLines(table)[..c + 3] == TableLines(table)[..c + 2] + [ColumnLine(table.columns[c])];
        schema := schema + ColumnLine(table.columns[c]) + "\n";
        c := c + 1;
      }
      assert TableLines(table)[..c + 2] == TableLines(table);
      assert ts[..t + 1] == ts[..t] + [table];
      SchemaLinesConcat(ts[..t], [table]);
      assert SchemaLines([table]) == TableLines(table);
      TerminatedConcat(SchemaLines(ts[..t]), TableLines(table));
      t := t + 1;
    }
    assert ts[..t] == ts;
  }

  const NoTables: string := "\U{274C} No tables found in the database."

  /** What `get_schema()` returns for the tables the database lists: a
      failure to read them, or an empty list, raises `RuntimeError`;
      otherwise the built text, stripped. */
  function Schema(tables: Result<seq<Table>>): (r: Result<string>)
    ensures r.Err? ==> r.error.RuntimeError?
    ensures r.Ok? <==> tables.Ok? && |tables.value| > 0
    ensures r.Ok? ==> Stripped(r.value)
  {
    match tables
    case Err(e) => Err(RuntimeError("Schema extraction failed: " + e.msg))
    case Ok(ts) =>
      if |ts| == 0 then Err(RuntimeError("Schema extraction failed: " + NoTables))
      else Ok(Strip(Terminated(SchemaLines(ts))))
  }

  /** `get_schema()`. */
  method GetSchema(tables: Result<seq<Table>>) returns (r: Result<string>)
    ensures r == Schema(tables)
  {
    if tables.Err? {
      return Err(RuntimeError("Schema extraction failed: " + tables.error.msg));
    }
    if |tables.value| == 0 {
      return Err(RuntimeError("Schema extraction failed: " + NoTables));
    }
    var schema := BuildSchema(tables.value);
    r := Ok(Strip(schema));
  }

  /** Before stripping, the schema text is the tables' lines in order: a
      blank line, `Table: <name>`, one ` - <col> (<type>)` line per column,
      then the next table (when no name or type holds a newline). */
  lemma SchemaTextLines(ts: seq<Table>)
    requires NoNewlines(ts)
    ensures Split(Terminated(SchemaLines(ts)), '\n') == SchemaLines(ts) + [""]
  {
    NoNewlineInSchemaLines(ts);
    TerminatedSplit(SchemaLines(ts));
  }

  /** Stripped, the schema text starts at the first `Table:` line. */
  lemma SchemaStartsWithTable(ts: seq<Table>)
    requires |ts| > 0
    ensures StartsWith(Strip(Terminated(SchemaLines(ts))), "Table:")
  {
    var lines := SchemaLines(ts);
    var rest := Terminated(lines[1..]);
    SchemaHead(ts);
    LStripNewline(rest);
    StrippedPrefix(rest, "Table:");
  }

  /** The schema text is a newline followed by the first `Table:` line. */
  lemma SchemaHead(ts: seq<Table>)
    requires |ts| > 0
    ensures var lines := SchemaLines(ts);
      |lines| > 1 && Terminated(lines) == "\n" + Terminated(lines[1..])
      && StartsWith(Terminated(lines[1..]), "Table:")
  {
    var lines := SchemaLines(ts);
    assert lines[..2] == ["", "Table: " + ts[0].name];
    var tail := lines[1..];
    assert tail[0] == "Table: " + ts[0].name;
    assert Terminated(tail) == tail[0] + "\n" + Terminated(tail[1..]);
  }

  /** Stripping a text that is a newline followed by a non-space character
      starts at that character. */
  lemma LStripNewline(rest: string)
    requires StartsWith(rest, "Table:")
    ensures Strip("\n" + rest) == RStrip(rest)
  {
    var s := "\n" + rest;
    assert s[1..] == rest;
    assert rest[0] == 'T';
    assert LStrip(rest) == rest;
    assert LStrip(s) == LStrip(s[1..]);
  }

  /** Stripping keeps a prefix whose last character is not whitespace, when
      the text does not start with whitespace. */
  lemma StrippedPrefix(s: string, p: string)
    requires |p| > 0 && StartsWith(s, p) && !IsSpace(p[0]) && !IsSpace(p[|p| - 1])
    ensures StartsWith(RStrip(s), p)
  {
    var r := RStrip(s);
    assert s[|p| - 1] == p[|p| - 1];
    assert |r| >= |p|;
    assert r[..|p|] == s[..|p|];
  }

  /** No table name, column name or type holds a newline. */
  predicate NoNewlines(ts: seq<Table>) {
    && (forall t :: 0 <= t < |ts| ==> '\n' !in ts[t].name)
    && (forall t, k :: 0 <= t < |ts| && 0 <= k < |ts[t].columns| ==>
          '\n' !in ts[t].columns[k].0 && '\n' !in ts[t].columns[k].1)
  }

  lemma {:induction false} NoNewlineInSchemaLines(ts: seq<Table>)
    requires NoNewlines(ts)
    ensures forall k :: 0 <= k < |SchemaLines(ts)| ==> '\n' !in SchemaLines(ts)[k]
  {
    if |ts| > 0 {
      NoNewlineInSchemaLines(ts[1..]);
    }
  }

  // ---------------------------------------------------------------------------
  // generate_prompt

  const PromptOpening: string :=
    "\nYou are a senior data analyst. Write a valid SQLite SELECT query only.\n\n## Database Schema:\n"
  const PromptMiddle: string := "\n\n## User Question:\n"
  const PromptClosing: string :=
    "\n\n## Instructions:\n- Use only SELECT queries\n- Use correct table and column names\n"
    + "- Do not include explanations, markdown, or comments\n- Return only raw SQL\n"

  /** `generate_prompt(question, schema)`: the fixed instructions with the
      schema and then the question placed verbatim in their sections. */
  function GeneratePrompt(question: string, schema: string): (p: string)
    ensures StartsWith(p, PromptOpening) && EndsWith(p, PromptClosing)
    ensures OccursAt(p, schema, |PromptOpening|)
    ensures OccursAt(p, question, |PromptOpening| + |schema| + |PromptMiddle|)
    ensures |p| == |PromptOpening| + |schema| + |PromptMiddle| + |question| + |PromptClosing|
  {
    var p := PromptOpening + schema + PromptMiddle + question + PromptClosing;
    assert p[..|PromptOpening|] == PromptOpening;
    assert p[|p| - |PromptClosing|..] == PromptClosing;
    p
  }

  /** For a given schema the question can be read back out of the prompt, so
      two different questions never yield the same prompt. */
  lemma PromptDeterminesQuestion(q1: string, q2: string, schema: string)
    ensures GeneratePrompt(q1, schema) == GeneratePrompt(q2, schema) <==> q1 == q2
  {
    if GeneratePrompt(q1, schema) == GeneratePrompt(q2, schema) {
      var p := GeneratePrompt(q1, schema);
      var at := |PromptOpening| + |schema| + |PromptMiddle|;
      assert |q1| == |q2|;
      assert q1 == p[at..at + |q1|] == q2;
    }
  }

  // ---------------------------------------------------------------------------
  // call_llm

  /** What `requests.post` to the chat-completions endpoint comes to. */
  datatype HttpReply =
      /** A `requests.exceptions.RequestException` with its text: no
          connection, a time-out, a status of 401 and above other than 400
          (`raise_for_status`), or a body that is not JSON. */
    | RequestFailed(msg: string)
      /** Status 400, with the body of the response. */
    | BadRequest(text: string)
      /** Any other status: `choices[0].message.content` of the JSON body, or
          the exception looking it up raises (a missing key or index). */
    | Replied(content: Result<string>)

  const ApiFailed: string := "LLM API request failed: "
  const NoSql: string := "LLM failed to generate SQL: "

  /** `call_llm(prompt)`, with `post(model, prompt)` standing for the request
      the agent sends: every failure is a `RuntimeError` whose text says
      whether the request itself failed or no SQL came out of the reply. */
  function CallLlm(agent: Agent, prompt: string, post: (string, string) -> HttpReply): (r: Result<string>)
    ensures r.Ok? <==> var h := post(agent.model, prompt);
      h.Replied? && h.content.Ok? && ExtractSql(Strip(h.content.value)).Ok?
    ensures r.Ok? ==> r == ExtractSql(Strip(post(agent.model, prompt).content.value))
    ensures r.Err? ==> r.error.RuntimeError?
    ensures post(agent.model, prompt).RequestFailed? ==> r.Err? && StartsWith(r.error.msg, ApiFailed)
    ensures r.Err? && !post(agent.model, prompt).RequestFailed? ==> StartsWith(r.error.msg, NoSql)
  {
    match post(agent.model, prompt)
    case RequestFailed(m) => Err(RuntimeError(ApiFailed + m))
    case BadRequest(text) => Err(RuntimeError(NoSql + "\U{274C} 400 Bad Request: " + text))
    case Replied(content) =>
      match content
      case Err(e) => Err(RuntimeError(NoSql + e.msg))
      case Ok(c) =>
        match ExtractSql(Strip(c))
        case Err(e) => Err(RuntimeError(NoSql + e.msg))
        case Ok(q) => Ok(q)
  }

  /** The reply is stripped before `_extract_sql` strips it again: the first
      strip changes nothing. */
  lemma ExtractSqlOfStripped(c: string)
    ensures ExtractSql(Strip(c)) == ExtractSql(c)
  {
    StripStripped(Strip(c));
  }

  /** A reply that opens with "select" in any case and ends in one
      semicolon yields the statement without the semicolon. */
  lemma CallLlmPlainSelect(agent: Agent, prompt: string, post: (string, string) -> HttpReply, q: string)
    requires Stripped(q) && StartsWith(Lower(q), "select") && !EndsWith(q, ";")
    requires post(agent.model, prompt) == Replied(Ok(q + ";"))
    ensures CallLlm(agent, prompt, post) == Ok(q)
  {
    var c := q + ";";
    assert Stripped(c) by {
      assert c[0] == q[0];
    }
    StripStripped(c);
    SemicolonReply(q);
  }

  lemma SemicolonReply(q: string)
    requires Stripped(q) && StartsWith(Lower(q), "select") && !EndsWith(q, ";")
    ensures ExtractSql(q + ";") == Ok(q)
  {
    var c := q + ";";
    assert LowerChar(q[0]) == 's' by {
      assert Lower(q)[0] == "select"[0];
    }
    assert c[0] == q[0];
    assert Stripped(c);
    StripStripped(c);
    assert !StartsWith(c, "```sql") by {
      assert LowerChar('`') == '`';
    }
    assert Defenced(c) == c;
    assert Lower(c)[..6] == Lower(q)[..6];
    assert RStripChar(c, ';') == q by {
      assert c[..|c| - 1] == q;
      assert q[|q| - 1] != ';' by {
        assert q[|q| - 1..] == [q[|q| - 1]];
      }
    }
  }

  // ---------------------------------------------------------------------------
  // execute_sql

  /** A result row as `dict(sqlite3.Row)`: column name to value. */
  type Row = Dict<Cell>

  /** `execute_sql(query)`, with `exec` standing for the database: the rows
      it returns, or a `RuntimeError` carrying the database's message. */
  function ExecuteSql(query: string, exec: string -> Result<seq<Row>>): (r: Result<seq<Row>>)
    ensures r.Ok? <==> exec(query).Ok?
    ensures r.Ok? ==> r.value == exec(query).value
    ensures r.Err? ==> r.error == RuntimeError("Failed to execute SQL: " + exec(query).error.msg)
  {
    match exec(query)
    case Ok(rows) => Ok(rows)
    case Err(e) => Err(RuntimeError("Failed to execute SQL: " + e.msg))
  }
}
