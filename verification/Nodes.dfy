/**
 The five nodes (agent/nodes). The model and the database answer through an oracle that sees the whole
 run so far, so that one oracle stands for any sequence of replies and outcomes.
 */
module Nodes {
  import opened Wrappers
  import opened PyText
  import opened SqlGuards
  import opened AgentState
  import opened Prompts

  /** What a call to the model comes to: text, or an exception. */
  datatype LlmReply = Text(content: string) | LlmRaises

  /** A key of the classifier's JSON object. */
  datatype Key = Absent | Null | Str(value: string)

  /** The classifier's reply as `json.loads` sees it. */
  datatype ClassifierReply =
    | ClassifierRaises
    | NotJson
    | NotObject
    | Object(status: Key, clarification: Key, reason: Key)

  datatype DbOutcome = Rows(rows: seq<Row>) | Failed(message: string)

  /** One node execution, with what it sent out and what came back. */
  datatype Event =
    | MergeFailed(merger: MergerPrompt)
    | Analyzed(merge: Option<MergerPrompt>, classifier: ClassifierPrompt, reply: ClassifierReply)
    | Generated(prompt: SqlPrompt, sqlReply: LlmReply)
    | Validated(sql: string, verdict: Verdict)
    | Executed(query: string, outcome: DbOutcome)
    | Formatted(answerPrompt: AnswerPrompt, answerReply: LlmReply)

  datatype Oracle = Oracle(
    merge: MergerPrompt -> LlmReply,
    classify: ClassifierPrompt -> ClassifierReply,
    generate: (seq<Event>, SqlPrompt) -> LlmReply,
    execute: (seq<Event>, string) -> DbOutcome,
    format: (seq<Event>, AnswerPrompt) -> LlmReply)

  datatype Limits = Limits(maxRounds: int, maxRetries: int, rowLimit: int, fewShot: string)

  /** `config["configurable"]`. */
  datatype Config = Config(limits: Limits, oracle: Oracle)

  /** A node either returns a partial update or raises. */
  datatype Visit = Returned(event: Event, update: Update) | Raised(event: Event)

  const DEFAULT_CLARIFICATION := "Could you clarify your question?"
  const DEFAULT_REASON := "This question is outside the scope of the system."
  const BAD_CLASSIFICATION := "Failed to classify the question."
  const TOO_AMBIGUOUS := "Too many ambiguous questions, please rephrase from scratch."
  const REJECTED_PREFIX := "Generated SQL failed safety validation: "
  const RETRIES_EXHAUSTED := "Failed to execute the query after multiple attempts."

  /** `parsed.get(key, fallback)`. */
  function Get(key: Key, fallback: string): Option<string> {
    match key
    case Absent => Some(fallback)
    case Null => None
    case Str(v) => Some(v)
  }

  function QuestionAnalyzer(cfg: Config, st: State): Visit {
    if st.lastClarification.Some? then
      var prompt := MergerPrompt(st.intent, st.lastClarification.value, st.question);
      match cfg.oracle.merge(prompt)
      case LlmRaises => Raised(MergeFailed(prompt))
      case Text(merged) => Classify(cfg, st, Some(prompt), Strip(merged))
    else
      Classify(cfg, st, None, OrElse(st.intent, st.question))
  }

  function Classify(cfg: Config, st: State, merge: Option<MergerPrompt>, intent: string): Visit {
    var prompt := ClassifierPrompt(intent, st.schemaContext);
    var reply := cfg.oracle.classify(prompt);
    var event := Analyzed(merge, prompt, reply);
    match reply
    case ClassifierRaises => Raised(event)
    case NotObject => Raised(event)
    case NotJson =>
      Returned(event, Update(status := Error, answer := Put(Some(BAD_CLASSIFICATION)), intent := Put(Some(intent))))
    case Object(status, clarification, reason) =>
      var classification := Get(status, "out_of_scope");
      if classification == Some("answerable") then
        Returned(event, Update(
          status := Generating, intent := Put(Some(intent)),
          lastClarification := Put(None), ambiguityCount := Put(0)))
      else if classification == Some("ambiguous") && st.ambiguityCount < cfg.limits.maxRounds then
        var question := Get(clarification, DEFAULT_CLARIFICATION);
        Returned(event, Update(
          status := AskingClarification, intent := Put(Some(intent)),
          lastClarification := Put(question), ambiguityCount := Put(st.ambiguityCount + 1),
          answer := Put(question)))
      else if classification == Some("ambiguous") then
        Returned(event, Update(status := Error, answer := Put(Some(TOO_AMBIGUOUS)), intent := Put(Some(intent))))
      else
        Returned(event, Update(
          status := Error, answer := Put(Get(reason, DEFAULT_REASON)), intent := Put(Some(intent))))
  }

  function SqlGenerator(cfg: Config, st: State, trace: seq<Event>): Visit {
    var retrying := st.retryCount > 0;
    var prompt := SqlPrompt(
      st.schemaContext,
      cfg.limits.fewShot,
      SqlParts(
        st.history,
        OrElse(st.intent, st.question),
        if retrying then st.sql else None,
        if retrying then st.sqlError else None));
    var reply := cfg.oracle.generate(trace, prompt);
    match reply
    case LlmRaises => Raised(Generated(prompt, reply))
    case Text(content) =>
      Returned(Generated(prompt, reply),
               Update(sql := Put(Some(Strip(content))), status := Validating, sqlError := Put(None)))
  }

  function SqlValidator(st: State): Visit {
    var sql := OrElse(st.sql, "");
    var verdict := ValidateSql(sql);
    if verdict.Valid? then
      Returned(Validated(sql, verdict), Update(status := Executing))
    else
      Returned(Validated(sql, verdict),
               Update(status := Error, answer := Put(Some(REJECTED_PREFIX + verdict.Message()))))
  }

  function SqlExecutor(cfg: Config, st: State, trace: seq<Event>): Visit {
    var sql := OrElse(st.sql, "");
    var outcome := cfg.oracle.execute(trace, sql);
    match outcome
    case Rows(rows) =>
      Returned(Executed(sql, outcome),
               Update(dbResults := Put(Some(rows)), status := Formatting, sqlError := Put(None)))
    case Failed(message) =>
      if st.retryCount + 1 <= cfg.limits.maxRetries then
        Returned(Executed(sql, outcome),
                 Update(sqlError := Put(Some(message)), retryCount := Put(st.retryCount + 1), status := Generating))
      else
        Returned(Executed(sql, outcome),
                 Update(sqlError := Put(Some(message)), status := Error, answer := Put(Some(RETRIES_EXHAUSTED))))
  }

  function AnswerFormatter(cfg: Config, st: State, trace: seq<Event>): Visit {
    var rows := if st.dbResults.Some? then st.dbResults.value else [];
    var prompt := AnswerPrompt(OrElse(st.intent, st.question), SliceTo(rows, cfg.limits.rowLimit));
    var reply := cfg.oracle.format(trace, prompt);
    match reply
    case LlmRaises => Raised(Formatted(prompt, reply))
    case Text(content) =>
      Returned(Formatted(prompt, reply), Update(answer := Put(Some(Strip(content))), status := Done))
  }

  /** The generator node with its prompt built part by part. */
  method RunSqlGenerator(cfg: Config, st: State, trace: seq<Event>) returns (visit: Visit)
    ensures visit == SqlGenerator(cfg, st, trace)
  {
    var retrySql := if st.retryCount > 0 then st.sql else None;
    var retryError := if st.retryCount > 0 then st.sqlError else None;
    var prompt := BuildSqlPrompt(
      st.schemaContext, cfg.limits.fewShot, st.history, OrElse(st.intent, st.question), retrySql, retryError);
    var reply := cfg.oracle.generate(trace, prompt);
    match reply {
      case LlmRaises =>
        visit := Raised(Generated(prompt, reply));
      case Text(content) =>
        visit := Returned(
          Generated(prompt, reply),
          Update(sql := Put(Some(Strip(content))), status := Validating, sqlError := Put(None)));
    }
  }
}
