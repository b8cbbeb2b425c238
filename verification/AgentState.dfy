/** The record shared by the nodes (agent/state.py) and the partial updates they return. */
module AgentState {
  import opened Wrappers

  datatype Status =
    | Analyzing
    | Generating
    | Validating
    | Executing
    | Formatting
    | AskingClarification
    | Error
    | Done

  datatype Role = User | Assistant

  datatype Turn = Turn(role: Role, content: string)

  /** A result row: column name to printed value. */
  type Row = map<string, string>

  datatype State = State(
    question: string,
    schemaContext: string,
    sql: Option<string>,
    sqlError: Option<string>,
    retryCount: nat,
    dbResults: Option<seq<Row>>,
    answer: Option<string>,
    status: Status,
    history: seq<Turn>,
    intent: Option<string>,
    lastClarification: Option<string>,
    ambiguityCount: nat)

  /** One key of a partial update: absent, or the new value. */
  datatype Write<+T> = Keep | Put(value: T)

  /** The dict a node returns. Every node sets the status. */
  datatype Update = Update(
    nameonly status: Status,
    nameonly sql: Write<Option<string>> := Keep,
    nameonly sqlError: Write<Option<string>> := Keep,
    nameonly retryCount: Write<nat> := Keep,
    nameonly dbResults: Write<Option<seq<Row>>> := Keep,
    nameonly answer: Write<Option<string>> := Keep,
    nameonly intent: Write<Option<string>> := Keep,
    nameonly lastClarification: Write<Option<string>> := Keep,
    nameonly ambiguityCount: Write<nat> := Keep)

  function Pick<T>(was: T, w: Write<T>): T {
    match w
    case Keep => was
    case Put(v) => v
  }

  /** Keys that a node does not return keep their old value. */
  function Apply(st: State, u: Update): State {
    st.(
      status := u.status,
      sql := Pick(st.sql, u.sql),
      sqlError := Pick(st.sqlError, u.sqlError),
      retryCount := Pick(st.retryCount, u.retryCount),
      dbResults := Pick(st.dbResults, u.dbResults),
      answer := Pick(st.answer, u.answer),
      intent := Pick(st.intent, u.intent),
      lastClarification := Pick(st.lastClarification, u.lastClarification),
      ambiguityCount := Pick(st.ambiguityCount, u.ambiguityCount))
  }
}
