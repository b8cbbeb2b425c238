/**
 The structured content of the prompts (agent/prompts): which values reach the model, in which order.
 Fixed wording is not modelled.
 */
module Prompts {
  import opened Wrappers
  import opened AgentState

  datatype MergerPrompt = MergerPrompt(intent: Option<string>, clarification: string, answer: string)

  datatype ClassifierPrompt = ClassifierPrompt(intent: string, schema: string)

  datatype Part =
    | Context(turns: seq<Turn>)
    | Question(intent: string)
    | PreviousAttempt(sql: string, error: string)

  datatype SqlPrompt = SqlPrompt(schema: string, fewShot: string, parts: seq<Part>)

  datatype AnswerPrompt = AnswerPrompt(question: string, rows: seq<Row>)

  function SqlParts(history: seq<Turn>, intent: string, retrySql: Option<string>, retryError: Option<string>)
    : seq<Part>
  {
    (if history != [] then [Context(history)] else [])
    + [Question(intent)]
    + (if retrySql.Some? && retryError.Some? then [PreviousAttempt(retrySql.value, retryError.value)] else [])
  }

  // ---- Reading a prompt back ----

  function HistoryIn(parts: seq<Part>): seq<Turn> {
    if parts != [] && parts[0].Context? then parts[0].turns else []
  }

  predicate HasContext(parts: seq<Part>) {
    exists k | 0 <= k < |parts| :: parts[k].Context?
  }

  /** The "Previous attempt failed" block, if the prompt ends with one. */
  function RetryBlock(prompt: SqlPrompt): Option<(string, string)> {
    var n := |prompt.parts|;
    if n > 0 && prompt.parts[n - 1].PreviousAttempt?
    then Some((prompt.parts[n - 1].sql, prompt.parts[n - 1].error))
    else None
  }

  /** The parts say exactly what they were built from: history, question, and the retry pair if complete. */
  lemma SqlPartsReadBack(
    schema: string, fewShot: string, history: seq<Turn>, intent: string,
    retrySql: Option<string>, retryError: Option<string>)
    ensures var prompt := SqlPrompt(schema, fewShot, SqlParts(history, intent, retrySql, retryError));
            && HistoryIn(prompt.parts) == history && (HasContext(prompt.parts) <==> history != [])
            && Question(intent) in prompt.parts
            && (forall other :: Question(other) in prompt.parts ==> other == intent)
            && RetryBlock(prompt)
            == if retrySql.Some? && retryError.Some? then Some((retrySql.value, retryError.value)) else None
  {
    var parts := SqlParts(history, intent, retrySql, retryError);
    assert parts[if history != [] then 1 else 0] == Question(intent);
    assert history != [] ==> parts[0].Context?;
  }

  /** The prompt, built part by part, from which exactly the given values can be read back. */
  method BuildSqlPrompt(
    schema: string, fewShot: string, history: seq<Turn>, intent: string,
    retrySql: Option<string>, retryError: Option<string>)
    returns (prompt: SqlPrompt)
    ensures prompt == SqlPrompt(schema, fewShot, SqlParts(history, intent, retrySql, retryError))
    ensures HistoryIn(prompt.parts) == history && (HasContext(prompt.parts) <==> history != [])
    ensures forall other :: Question(other) in prompt.parts <==> other == intent
    ensures RetryBlock(prompt).Some? <==> retrySql.Some? && retryError.Some?
    ensures RetryBlock(prompt).Some? ==> RetryBlock(prompt).value == (retrySql.value, retryError.value)
  {
    SqlPartsReadBack(schema, fewShot, history, intent, retrySql, retryError);
    var parts: seq<Part> := [];
    if history != [] {
      parts := parts + [Context(history)];
    }
    parts := parts + [Question(intent)];
    if retrySql.Some? && retryError.Some? {
      parts := parts + [PreviousAttempt(retrySql.value, retryError.value)];
    }
    prompt := SqlPrompt(schema, fewShot, parts);
  }
}
