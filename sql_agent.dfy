/**
 * `NL2SQLAgent.ask` of sql_agent.py: read the schema, build the prompt, ask
 * the model for a query, run it, and report the outcome as a status record
 * instead of raising. The database listing, the HTTP endpoint and the query
 * engine are parameters.
 */
module SqlAgent {
  import opened Results
  import opened Text
  import opened SqlText

  /** The dict `ask` returns: status "success" with the question, the query
      and its rows, or status "error" with the exception's text. */
  datatype Reply =
    | Success(question: string, query: string, result: seq<Row>)
    | Failure(error: string)
  {
    /** The value under the "status" key. */
    function Status(): (s: string)
      ensures s == "success" <==> this.Success?
      ensures s == "error" <==> this.Failure?
    {
      if this.Success? then "success" else "error"
    }
  }

  /** The reply `ask(question)` gives once `get_schema()` has come to
      `schema`, when the endpoint answers `post` and the database runs
      queries as `exec`. */
  function AskOutcome(agent: Agent, question: string, schema: Result<string>,
                      post: (string, string) -> HttpReply, exec: string -> Result<seq<Row>>): Reply
  {
    match schema
    case Err(e) => Failure(e.msg)
    case Ok(text) =>
      match CallLlm(agent, GeneratePrompt(question, text), post)
      case Err(e) => Failure(e.msg)
      case Ok(query) =>
        match ExecuteSql(query, exec)
        case Err(e) => Failure(e.msg)
        case Ok(rows) => Success(question, query, rows)
  }

  /** `ask(question)` on a database that lists `tables`: every exception of
      the steps becomes an error reply. */
  method Ask(agent: Agent, question: string, tables: Result<seq<Table>>,
             post: (string, string) -> HttpReply, exec: string -> Result<seq<Row>>)
    returns (reply: Reply)
    ensures reply == AskOutcome(agent, question, Schema(tables), post, exec)
  {
    var schema := GetSchema(tables);
    if schema.Err? {
      return Failure(schema.error.msg);
    }
    var prompt := GeneratePrompt(question, schema.value);
    var query := CallLlm(agent, prompt, post);
    if query.Err? {
      return Failure(query.error.msg);
    }
    var rows := ExecuteSql(query.value, exec);
    if rows.Err? {
      return Failure(rows.error.msg);
    }
    reply := Success(question, query.value, rows.value);
  }

  /** A success echoes the question, carries a query that begins with
      "select" in any case and has no trailing semicolon, is what the
      model's reply to the prompt holding the schema and the question
      yields, and carries exactly the rows the database returned for that
      query; it needs a database with at least one table. */
  lemma AskSuccess(agent: Agent, question: string, tables: Result<seq<Table>>,
                   post: (string, string) -> HttpReply, exec: string -> Result<seq<Row>>)
    ensures var reply := AskOutcome(agent, question, Schema(tables), post, exec);
      reply.Success? ==>
        && tables.Ok? && |tables.value| > 0
        && reply.question == question
        && StartsWith(Lower(reply.query), "select") && !EndsWith(reply.query, ";")
        && CallLlm(agent, GeneratePrompt(question, Schema(tables).value), post) == Ok(reply.query)
        && exec(reply.query) == Ok(reply.result)
  {
    var schema := Schema(tables);
    var reply := AskOutcome(agent, question, schema, post, exec);
    if reply.Success? {
      var query := CallLlm(agent, GeneratePrompt(question, schema.value), post);
      assert query.Ok? && reply.query == query.value;
    }
  }

  /** Each failure names the step that failed: reading the schema, reaching
      the model, getting SQL out of its reply, or running the query. */
  lemma AskFailure(agent: Agent, question: string, tables: Result<seq<Table>>,
                   post: (string, string) -> HttpReply, exec: string -> Result<seq<Row>>)
    ensures var reply := AskOutcome(agent, question, Schema(tables), post, exec);
      reply.Failure? ==>
        || StartsWith(reply.error, "Schema extraction failed: ")
        || StartsWith(reply.error, ApiFailed)
        || StartsWith(reply.error, NoSql)
        || StartsWith(reply.error, "Failed to execute SQL: ")
  {
    var schema := Schema(tables);
    if schema.Err? {
      SchemaFailure(tables);
    } else {
      AskFailureAfterSchema(agent, question, schema.value, post, exec);
    }
  }

  /** The failures after the schema step. */
  lemma AskFailureAfterSchema(agent: Agent, question: string, text: string,
                              post: (string, string) -> HttpReply, exec: string -> Result<seq<Row>>)
    ensures var reply := AskOutcome(agent, question, Ok(text), post, exec);
      reply.Failure? ==>
        || StartsWith(reply.error, ApiFailed)
        || StartsWith(reply.error, NoSql)
        || StartsWith(reply.error, "Failed to execute SQL: ")
  {
    var query := CallLlm(agent, GeneratePrompt(question, text), post);
    if query.Err? {
      assert AskOutcome(agent, question, Ok(text), post, exec) == Failure(query.error.msg);
    } else {
      var rows := ExecuteSql(query.value, exec);
      if rows.Err? {
        assert AskOutcome(agent, question, Ok(text), post, exec) == Failure(rows.error.msg);
      }
    }
  }

  /** A database that cannot be read, or has no table, fails at the schema
      step with that reason, whatever the model and the query would do. */
  lemma AskWithoutSchema(agent: Agent, question: string, tables: Result<seq<Table>>,
                         post: (string, string) -> HttpReply, exec: string -> Result<seq<Row>>)
    ensures tables.Err? ==> AskOutcome(agent, question, Schema(tables), post, exec)
                             == Failure("Schema extraction failed: " + tables.error.msg)
    ensures tables == Ok([]) ==> AskOutcome(agent, question, Schema(tables), post, exec)
                                  == Failure("Schema extraction failed: " + NoTables)
  {
  }

  lemma SchemaFailure(tables: Result<seq<Table>>)
    requires Schema(tables).Err?
    ensures StartsWith(Schema(tables).error.msg, "Schema extraction failed: ")
  {
    if tables.Err? {
      assert Schema(tables).error.msg == "Schema extraction failed: " + tables.error.msg;
    } else {
      assert Schema(tables).error.msg == "Schema extraction failed: " + NoTables;
    }
  }

  /** Once the schema has been read, a model whose reply yields a SELECT
      statement and a query that runs make `ask` succeed with that statement
      and its rows. */
  lemma AskSucceedsWhenEveryStepDoes(agent: Agent, question: string, schema: string,
                                     post: (string, string) -> HttpReply, exec: string -> Result<seq<Row>>)
    requires CallLlm(agent, GeneratePrompt(question, schema), post).Ok?
    requires exec(CallLlm(agent, GeneratePrompt(question, schema), post).value).Ok?
    ensures var q := CallLlm(agent, GeneratePrompt(question, schema), post).value;
      AskOutcome(agent, question, Ok(schema), post, exec) == Success(question, q, exec(q).value)
  {
  }
}
