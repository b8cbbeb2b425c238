# Verification model of the university QA agent

The service answers questions about a university database. A request reads its session, runs a graph of five nodes
(analyse, generate SQL, validate it, execute it, format the answer) with a retry loop, and saves the session. The
language model and the database are oracles: any reply, any exception, any rows. The project models

* the SQL guard chain, down to the scans and the word search (`PyText`, `SqlTokens`, `SqlGuards`);
* the graph: shared state, partial updates, routing tables, retry loop (`AgentState`, `Prompts`, `Nodes`, `Graph`),
  and what every run keeps (`GraphRuns`, `RunTheorems`);
* one request, its answer and one session's conversation (`Sessions`, `Conversation`, `Answers`), requests of many
  sessions interleaved at the point where the handler awaits the graph (`Interleaving`, `LostUpdates`, `Histories`,
  `StreakLimit`), and the handler itself as an object over the session store (`Routes`);
* schema introspection, grouping and printing, with a parser for the printed text (`SchemaRows`, `SchemaLoader`,
  `SchemaParser`, `SchemaPipeline`).

`dafny verify dfyconfig.toml` checks everything.

## How to read it

A run is a function of the configuration, the oracle and the initial state. Its trace records one event for each node
execution: what the node sent out and what came back. The oracle sees the trace so far, so one oracle stands for any
sequence of replies. A request that begins takes a snapshot of its session; a request that ends runs on that snapshot
and saves over whatever the session holds by then. An execution is any sequence of these two transitions.

Properties that do not hold of the code are stated with the condition under which they do:

* A history window of 0 gives the model the whole log, although the state's documentation promises at most as many
  turns as the window says; on logs of whole exchanges the cap holds iff the window is at least 1
  (`WindowCapsHistoryIff`).
* The user's answer to a clarification reaches the merger iff the stored question is not null
  (`AnswerReachesMergerIff`). After a null question and with an intent stored, whatever the user answers makes no
  difference to the run (`NullClarificationIgnoresAnswer`).
* Appending semicolons keeps the validator's verdict, except after a text that passes the first two guards and ends in
  whitespace behind its own semicolons (`SemicolonsKeepVerdictIff`, with the example `SemicolonAfterSpaceIsStacked`).
* An execution is serializable by its committed requests iff no request commits after another one of its session has
  committed since it began (`SerializableIffCommitsAreCurrent`). That requests of a session do not overlap is enough
  (`NonOverlappingIsCurrent`) but not needed: two that overlap are serializable iff one of them fails
  (`TwoOverlappingAreCurrentIff`). `LastToEndWins` shows what two overlapping commits leave.
* Every execution keeps the clarifications in a row of each session within the limit iff the limit allows none
  (`LimitHoldsIffZero`): with a positive limit any number of overlapping requests can all be asked
  (`OverlapOutrunsLimit`). Under any limit an execution keeps it as long as its commits are current
  (`CurrentSessionsCountTheirStreak`).
* The printed schema can be read back iff each table that is printed has a name without `: ` and newline, at least one
  column, column names without `→`, `, ` and newline, and targets without `, ` and newline (`ReadBackIffReadable`); from
  a catalog with distinct table names this is `BuildSchemaContext`. Any other schema is read as a different one, which
  is printed alike iff every line of the text has a `: ` (`CollidesIffUnreadable`, with the example
  `SeparatorInColumnNameCollides`).

Where the code and its documentation differ, the model follows the code. Rows are cut to the configured number for the
answer prompt only; the state keeps all of them, while the repository's README says that the executor caps them. The
classifier's `reason` is documented as never shown to the user, and the out-of-scope branch answers with it. A lookup of
an unknown session yields a blank history without creating an entry.

## Model

| member | source | states |
|---|---|---|
| SqlTokens.SearchIsTokenisation | agent/nodes/sql_validator.py:30-37 | For every text and list of words, the `\b(...)\b` search matches iff some maximal run of word characters is a listed word in any case, and its span is that of the leftmost one, whatever the order and overlap of the alternatives. |
| SqlTokens.FoundIsLeftmostListedText | agent/nodes/sql_validator.py:66-73 | The text reported by a guard is the leftmost listed token, verbatim. |
| SqlTokens.SearchIgnoresPadding | agent/nodes/sql_validator.py:66-73 | Non-word characters around a text shift the match and change nothing else. |
| PyText.UpperPairsAlphabets | agent/nodes/sql_validator.py:56 | Upper-casing takes each of the 26 small letters to its capital and leaves every other character alone. |
| PyText.SameUpperIffSameLetter | agent/nodes/sql_validator.py:30-37 | Two characters agree "in any case" iff they are equal or stand at the same place of the two alphabets. |
| SqlTokens.HasListedTokenIffHoldsWord | agent/nodes/sql_validator.py:30-37 | A listed token is a listed word in any mix of small and capital letters with no letter, digit or underscore, as listed, on either side. |
| SqlGuards.StartsAllowedIsOpensWithSelect | agent/nodes/sql_validator.py:55-58 | The first guard passes iff the text reads whitespace, opening parentheses, then SELECT or WITH in any case. |
| SqlGuards.StackedIsNotSingleStatement | agent/nodes/sql_validator.py:60-63 | The second guard fails iff the text has a semicolon outside one final run that only whitespace follows. |
| SqlGuards.VerdictIsFirstFailingGuard | agent/nodes/sql_validator.py:55-75 | Each verdict, with the word it reports, is given exactly when its guard is the first one that the text fails. |
| SqlGuards.AcceptedIffQueryShape | agent/nodes/sql_validator.py:40-75 | A text is accepted iff it splits into whitespace, a semicolon-free body opening with SELECT or WITH after parentheses, a run of semicolons and whitespace, and no token is a blocked word. |
| SqlGuards.AcceptedIffNoBlockedWordStands | agent/nodes/sql_validator.py:30-75 | With the eleven keywords and two schemas written out: a text is accepted iff it opens with SELECT or WITH, is a single statement, and none of these words stands in it in any mix of cases, bounded on both sides. |
| SqlGuards.OpeningInLetters | agent/nodes/sql_validator.py:55-58 | Opening with SELECT or WITH, with the whitespace by code point and the word by its letters. |
| SqlGuards.MessageTellsVerdict | agent/nodes/sql_validator.py:58-73 | The error message identifies the guard that failed and the reported word. |
| SqlGuards.RejectionNamesFirstFailingGuard | agent/nodes/sql_validator.py:58-73 | The message is the literal text that belongs to the first guard the text fails, with the leftmost blocked token in it. |
| SqlGuards.VerdictIgnoresCase | agent/nodes/sql_validator.py:30-37 | Changing the case of any letters keeps the verdict and the failing guard. |
| SqlGuards.VerdictIgnoresOuterWhitespace | agent/nodes/sql_validator.py:56-61 | Outer whitespace keeps the verdict and the reported word. |
| SqlGuards.SemicolonsKeepVerdictIff | agent/nodes/sql_validator.py:60-63 | Appending semicolons keeps the verdict iff the text does not both pass the first two guards and end in whitespace behind a semicolon; otherwise it becomes a stacked statement. |
| SqlGuards.SemicolonsKeepStrippedVerdict | agent/nodes/sql_validator.py:60-63 | A text without outer whitespace keeps its verdict under any number of appended semicolons. |
| SqlGuards.SemicolonAfterSpaceIsStacked | agent/nodes/sql_validator.py:60-63 | A text that the second guard lets through and that one more semicolon turns into a stacked statement. |
| Prompts.BuildSqlPrompt | agent/prompts/sql_generator.py:77-92 | From the prompt built part by part the history, the one question and the retry pair can be read back as given; there is a retry block iff SQL and error are both given. |
| Prompts.SqlPartsReadBack | agent/prompts/sql_generator.py:79-90 | History, question and retry pair can be read back from the parts; a retry block is there iff SQL and error are both given. |
| Graph.BuildGraph | agent/graph.py:68-111 | Building node by node and edge by edge yields exactly the tables of the graph. |
| Graph.Workflow.Invoke | agent/graph.py:56-111 | Running through the tables terminates and yields the specified run, node by node. |
| GraphRuns.RunStaysGood | agent/graph.py:76-109 | From any point of a run that satisfies the invariant, the run ends; every execution is linked to those before it and the final state is one of the listed ones, field by field. |
| RunTheorems.EveryRunEnds | agent/graph.py:76-109 | No run gets stuck or runs on: it finishes in exactly one of seven ways or ends with an exception of the model, within 3 * (max(0, max_retries) + 1) + 2 node executions. |
| RunTheorems.GeneratesIffAnswerable | agent/nodes/question_analyzer.py:89-99 | A run goes on to generate SQL iff the classifier's object has the status "answerable"; absent, null or any other text ends it. |
| RunTheorems.FinalStatesAreClassified | api/routes.py:173-179 | A finished run is done with its evidence (accepted SQL, the rows it returned, no error), or asks a clarification with no SQL generated, or failed with one of five causes, where the database error is kept iff retries ran out. |
| RunTheorems.CountsAreExact | agent/nodes/sql_executor.py:58-80 | Once a finished run generates, generations and validations number retry_count + 1, executions the same or one fewer if the validator rejected last; retry_count stays within the limit. |
| RunTheorems.OnlyValidatedSqlIsExecuted | agent/nodes/sql_validator.py:95-106 | In every run, finished or not, each text sent to the database is the one just generated and has the accepted shape; a rejected text ends the run. |
| RunTheorems.RetryPromptsAreFaithful | agent/nodes/sql_generator.py:51-69 | The k-th generation prompt has a retry block iff k > 1, holding the SQL of generation k - 1 and the error that this SQL raised, although each generation clears the error. |
| RunTheorems.AnswersSeeTruncatedRows | agent/nodes/answer_formatter.py:45-55 | The answer prompt holds a prefix of the rows just fetched: the first row_limit, or for a negative limit all but that many. |
| Sessions.SessionStore.Save | api/session_store.py:77-85 | After a save the session reads as the saved history and every other session reads as before. |
| Conversation.ServedFacts | api/routes.py:151-186 | A request either fails and saves nothing, or saves one exchange more with a final status and answers with it, 422 iff it is an error; the round counter grows by one, resets or is carried. |
| Answers.AnswerTellsEnding | api/routes.py:151-186 | For every request, by the last execution of its run: it is an internal error that saves nothing iff a model call raised or the classification was no object; otherwise it is answered with the text of that ending (clarification, the five error causes word for word, or the formatted answer), its status and code, and saved with question and reply at the end of the log. |
| Answers.DoneIffFormatted | api/routes.py:157-186 | The reply is done iff the run ended with a formatted answer, and then that text, stripped, is what is answered and saved. |
| Conversation.MergerIsCalledIff | agent/nodes/question_analyzer.py:60-76 | Whatever becomes of the request, the merger is called iff a clarification question is pending, with the stored intent, that question and the new answer; its reply, or else the question, is what is classified. |
| Conversation.ServedIntent | agent/nodes/question_analyzer.py:76-128 | The intent that was classified is the one saved, if anything is. |
| Conversation.AmbiguousIsAsked | agent/nodes/question_analyzer.py:101-111 | Below the limit an ambiguous classification is always asked and saved, one round further: the question of the classifier, nothing if its key is null, the default only if it is absent. |
| Conversation.AnswerReachesMergerIff | agent/nodes/question_analyzer.py:60-70 | In a continuation, also one that ends in an exception, the user's words reach the merger iff the pending question is not null. |
| Conversation.NullClarificationIgnoresAnswer | agent/nodes/question_analyzer.py:60-70 | When the pending question is null and the stored intent is not empty, every answer of the user leads to the same run and the same response. |
| Conversation.IntentIsFold | agent/nodes/question_analyzer.py:60-70 | Over a fresh question and its clarification answers, each merger call receives the folded intent so far, the last clarification and the new answer, and the saved intent is the fold from the question. |
| Conversation.CounterCountsStreak | agent/nodes/question_analyzer.py:92-119 | In a conversation the carried counter equals the number of clarifications in a row at the end of the saved replies, and no such row exceeds the limit. |
| Conversation.NoLongerStreak | agent/nodes/question_analyzer.py:101-119 | Among any max_rounds + 1 saved replies in a row one is not a clarification. |
| Conversation.TurnsAreTranscript | api/routes.py:157-160 | The turns of a conversation are the exchanges of its answered requests, in order. |
| Conversation.WindowIsLastExchanges | api/routes.py:121-131 | For a window w >= 1 the history is the last w whole exchanges or all of them; for 0 it is the whole log; a negative one drops that many from the front. |
| Conversation.WindowCapsHistoryIff | agent/state.py:111-113 | The documented cap on the history holds for all logs of whole exchanges iff the window is at least 1. |
| Interleaving.Serializable | api/routes.py:115-171 | If no two requests of one session overlap, store and responses equal those of running the ended requests one at a time, in the order in which they ended. |
| Interleaving.SerializableByCommits | api/routes.py:151-171 | The same with only the committed requests, so failed ones leave no trace. |
| LostUpdates.SerializableIffCommitsAreCurrent | api/routes.py:115-171 | In every execution from every store: store and replies of the committed requests are those of running them one at a time in commit order iff none commits after another one of its session has committed since it began. |
| LostUpdates.ExecKeepsLost | api/routes.py:157-171 | Once a session holds fewer turns than its commits brought, no continuation of the execution makes up for them. |
| LostUpdates.NonOverlappingIsCurrent | api/routes.py:115-171 | If no two requests of one session overlap, no commit follows another one of its session made since its request began. |
| LostUpdates.TwoOverlappingAreCurrentIff | api/routes.py:115-171 | Two requests of a session that overlap do not commit over one another iff one of them ends in an exception. |
| LostUpdates.LastToEndWins | api/routes.py:157-171 | Of two overlapping requests of one session that both commit, the one that ends last saves over the turns of the other, and the serial run in the order of the ends does not give this store and these replies. |
| Interleaving.SessionsDoNotInterfere | api/routes.py:115-186 | In every interleaving, deleting all events of other sessions changes neither a session's entry nor its pending requests nor any of its responses. |
| Histories.RoundsStayWithin | agent/nodes/question_analyzer.py:101-110 | No interleaving, overlaps included, stores more clarification rounds than max(0, max_rounds). |
| Histories.HistoriesAreConversations | api/routes.py:115-171 | Under every interleaving each stored history and snapshot is that of a serial conversation of some of the session's committed requests, in commit order and answered as in it. |
| Histories.TurnsAreOwnExchanges | api/session_store.py:65-85 | Under every interleaving the turns of a stored history or snapshot are exactly the exchanges of some of the session's committed requests, in commit order; nothing precedes them. |
| Histories.FirstRequestStartsFromNothing | api/session_store.py:46-75 | A request that begins while none of its session has committed is given no history, no intent, no clarification and no rounds, and none of its prompts has a conversation context. |
| Histories.StoredTurnsArePaired | api/routes.py:157-160 | In every reachable store a session's turns are whole exchanges, user then assistant. |
| Histories.GivenHistoryIsLastExchanges | api/routes.py:121-131 | Whenever a request begins, its run is given the last whole exchanges of its session that the window allows. |
| Histories.SerialSessionsCountTheirStreak | api/routes.py:115-171 | Without overlaps each session is one conversation of all its requests; its counter is its streak of clarifications, never above the limit. |
| Histories.CurrentSessionsCountTheirStreak | api/routes.py:115-171 | The same for the committed requests whenever commits are current, however failed requests overlap them. |
| Histories.StoredIntentIsFold | agent/nodes/question_analyzer.py:60-70 | Whenever commits are current, a session whose last committed requests are a question and the answers to its clarifications stores the fold of the merger over them; failed requests in between make no difference. |
| StreakLimit.OverlapOutrunsLimit | api/routes.py:134-171 | With any limit of at least one round, n ambiguous requests of a session that all begin before the first one ends get n clarifications in a row. |
| StreakLimit.LimitHoldsIffZero | agent/nodes/question_analyzer.py:101-110 | All executions keep the clarifications in a row within max(0, max_rounds) iff max_rounds is at most 0. |
| Histories.StaleFieldsAreUnobservable | api/routes.py:116-134 | Histories that differ only in clarification fields of sessions with no clarification pending get the same responses under every sequence of requests. |
| Histories.ClearingStaleFieldsIsUnobservable | agent/nodes/question_analyzer.py:113-128 | Clearing those fields, which error branches leave stale, changes no response. |
| Routes.ChatServer.BeginChat | api/routes.py:115-138 | The handler up to the await is the beginning transition: it reads the session and changes no entry. |
| Routes.ChatServer.EndChat | api/routes.py:151-186 | The handler from the await on is the ending transition: it saves over the current entry or, after an exception, only answers. |
| Routes.ChatServer.Chat | api/routes.py:81-186 | A request that nothing interrupts is served on the current history. |
| SchemaRows.FetchSchema | db/sqlite.py:105-128 | One row for each column, in catalog and declaration order, with its table, name and type; it is a foreign key iff some key is on the column, and refers to the table and column of the last such key, or to None after the dot. |
| SchemaRows.EveryRowHasItsColumn | db/sqlite.py:118-127 | Every row is that of exactly one column of the catalog. |
| SchemaRows.ReferenceIsLastKey | db/sqlite.py:107-117 | A column is a foreign key iff some key is on it, and its target is the table, a dot and the column of the last one. |
| SchemaLoader.LoadSchemaContext | db/schema_loader.py:46-57 | The dictionary loop followed by the join prints the groups of the rows. |
| SchemaLoader.CellShowsReference | db/schema_loader.py:52-55 | For any row, the cell is the column, with an arrow and the reference iff the row is a foreign key whose reference is neither None nor empty. |
| SchemaLoader.GroupingConserves | db/schema_loader.py:46-55 | For rows in any order the groups hold the rows' cells with their multiplicity, each under its own table. |
| SchemaLoader.GroupingIsStable | db/schema_loader.py:46-55 | Within each table the columns keep the order of the rows. |
| SchemaLoader.TablesInOrderOfOccurrence | db/schema_loader.py:46-50 | Tables appear in the order of their first rows, and exactly the tables of the rows appear. |
| SchemaLoader.ContiguousRowsComeBack | db/schema_loader.py:46-55 | Rows already contiguous by table come back unchanged when the groups are flattened. |
| SchemaParser.ReadBackIffReadable | db/schema_loader.py:52-57 | Parsing the printed schema gives back tables, columns and targets in order iff no name holds a separator where the parser would take it for one and every table has a column. |
| SchemaParser.PrintUndoesParseIff | db/schema_loader.py:57 | Printing what was parsed from a text gives the text again iff it is empty or each of its lines has a table name. |
| SchemaParser.PrintingIsInjective | db/schema_loader.py:57 | Distinct readable schemas are never printed alike. |
| SchemaParser.CollidesIffUnreadable | db/schema_loader.py:57 | A schema is printed like another, readable one iff it is not readable and each line of its text has a table name. |
| SchemaPipeline.GroupedCatalogIsDirect | db/sqlite.py:105-128 | For distinct table names, grouping the introspected rows is the table-by-table reading of the catalog, with an arrow exactly on foreign-key columns. |
| SchemaPipeline.BuildSchemaContext | db/schema_loader.py:44-57 | For distinct table names the text has one line for each table with columns, in catalog order, with an arrow exactly on keyed columns to the table and column of the last key; tables, columns and targets can be parsed back from it iff each table is readable. |
| SchemaPipeline.SeparatorInColumnNameCollides | db/sqlite.py:105-128 | For any names, a table whose one column is named "b, c" and a table with columns b and c are introspected differently and printed alike. |

## Left out

- PyText.Strip: removes ASCII whitespace only; with PyText.UpperChar and SqlTokens.IsWordChar it treats every non-ASCII character as neither whitespace nor letter nor word character, unlike Python's Unicode tables.
- Nodes.QuestionAnalyzer: clarification question and reason are absent, null or text; other JSON values, which response validation refuses after the save, are not modelled.
- Nodes.SqlExecutor: rows are maps of printed values; the meaning of SQL and of the data is an oracle.
- Graph.Run: the library's own recursion limit, which aborts runs of more node executions than it allows, is not modelled; it belongs to LangGraph and is not set in the repository.
- Prompts.BuildSqlPrompt: fixed wording, the role labels of history lines and the JSON form of result rows are not modelled, only which values reach the model and in which order.
- Routes.ChatServer.EndChat: the graph runs in one piece when the request ends; nodes of different requests do not share state, so their interleaving is not represented.
- Sessions.SessionStore.Save: histories are values, so aliasing between a snapshot and the stored object is not represented; the source builds a new list and a new record on every save.
- Tracing, log records, trace identifiers, health check, start-up, schema refresh and dependency wiring.
- Request validation by the web framework (lengths of session identifier and question).
- The Postgres connector and the connector factory; only the SQLite introspection is modelled.
- Reading settings from the environment; the limits are integer parameters, zero and negative values included.
