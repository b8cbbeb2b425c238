/**
 What every run of the graph keeps, under any oracle: how each execution is linked to the ones before it,
 how often each node runs, and in which ways a run can end.
 */
module GraphRuns {
  import opened Wrappers
  import opened PyText
  import opened SqlGuards
  import opened AgentState
  import opened Prompts
  import opened Nodes
  import opened Graph

  /** The state a request starts from: nothing generated, nothing executed, no answer. */
  predicate IsFresh(st: State) {
    && st.sql == None && st.sqlError == None && st.retryCount == 0
    && st.dbResults == None && st.answer == None && st.status == Analyzing
  }

  function Clamp(n: int): nat {
    if n > 0 then n else 0
  }

  function NodeOf(e: Event): Node {
    match e
    case MergeFailed(_) => Analyzer
    case Analyzed(_, _, _) => Analyzer
    case Generated(_, _) => Generator
    case Validated(_, _) => Validator
    case Executed(_, _) => Executor
    case Formatted(_, _) => Formatter
  }

  /** How often a node was executed. */
  function Count(trace: seq<Event>, node: Node): nat {
    if trace == [] then 0
    else Count(trace[..|trace| - 1], node) + if NodeOf(trace[|trace| - 1]) == node then 1 else 0
  }

  lemma CountAppend(trace: seq<Event>, e: Event, node: Node)
    ensures Count(trace + [e], node) == Count(trace, node) + if NodeOf(e) == node then 1 else 0
  {
    assert (trace + [e])[..|trace|] == trace;
  }

  // ---- How an execution is linked to those before it ----

  function Last(trace: seq<Event>): Event
    requires trace != []
  {
    trace[|trace| - 1]
  }

  /** The intent the run works on, as classified. */
  function IntentOf(trace: seq<Event>): string
    requires trace != [] && trace[0].Analyzed?
  {
    trace[0].classifier.intent
  }

  /** The merger runs iff a clarification is pending; its reply, or else the question, is the intent. */
  predicate AnalysisLinked(cfg: Config, st0: State, merge: Option<MergerPrompt>, classifier: ClassifierPrompt) {
    && classifier.schema == st0.schemaContext
    && match st0.lastClarification
       case None =>
         && merge == None
         && classifier.intent
         == if st0.intent.Some? && st0.intent.value != "" then st0.intent.value else st0.question
       case Some(clarification) =>
         var prompt := MergerPrompt(st0.intent, clarification, st0.question);
         && merge == Some(prompt)
         && cfg.oracle.merge(prompt).Text?
         && classifier.intent == Strip(cfg.oracle.merge(prompt).content)
  }

  /** The run was classified as answerable; nothing past the analyzer happens otherwise. */
  predicate IsAnswerable(trace: seq<Event>) {
    trace != [] && trace[0].Analyzed? && trace[0].reply.Object? && trace[0].reply.status == Str("answerable")
  }

  /** What the generator and the formatter are asked: the classified intent, or the question if it is empty. */
  function AskedIn(st0: State, trace: seq<Event>): string
    requires trace != [] && trace[0].Analyzed?
  {
    if IntentOf(trace) != "" then IntentOf(trace) else st0.question
  }

  /** A later generation follows a failed execution of the SQL of the generation three executions back. */
  predicate IsRetryPoint(before: seq<Event>) {
    var n := |before|;
    && n >= 4
    && before[n - 1].Executed? && before[n - 1].outcome.Failed?
    && before[n - 3].Generated? && before[n - 3].sqlReply.Text?
    && before[n - 1].query == Strip(before[n - 3].sqlReply.content)
  }

  predicate GenerationLinked(cfg: Config, st0: State, before: seq<Event>, prompt: SqlPrompt) {
    && IsAnswerable(before)
    && prompt.schema == st0.schemaContext && prompt.fewShot == cfg.limits.fewShot
    && HistoryIn(prompt.parts) == st0.history && (HasContext(prompt.parts) <==> st0.history != [])
    && Question(AskedIn(st0, before)) in prompt.parts
    && if |before| == 1 then RetryBlock(prompt) == None
       else IsRetryPoint(before)
            && RetryBlock(prompt) == Some((Last(before).query, Last(before).outcome.message))
  }

  predicate FormattingLinked(cfg: Config, st0: State, before: seq<Event>, prompt: AnswerPrompt) {
    && IsAnswerable(before)
    && Last(before).Executed? && Last(before).outcome.Rows?
    && prompt.question == AskedIn(st0, before)
    && prompt.rows == SliceTo(Last(before).outcome.rows, cfg.limits.rowLimit)
  }

  predicate Linked(cfg: Config, st0: State, before: seq<Event>, e: Event) {
    match e
    case MergeFailed(merger) =>
      && before == [] && st0.lastClarification.Some?
      && merger == MergerPrompt(st0.intent, st0.lastClarification.value, st0.question)
      && cfg.oracle.merge(merger).LlmRaises?
    case Analyzed(merge, classifier, reply) =>
      && before == [] && reply == cfg.oracle.classify(classifier)
      && AnalysisLinked(cfg, st0, merge, classifier)
    case Generated(prompt, reply) =>
      reply == cfg.oracle.generate(before, prompt) && GenerationLinked(cfg, st0, before, prompt)
    case Validated(sql, verdict) =>
      && before != [] && Last(before).Generated? && Last(before).sqlReply.Text?
      && sql == Strip(Last(before).sqlReply.content)
      && verdict == ValidateSql(sql)
    case Executed(query, outcome) =>
      && before != [] && Last(before) == Validated(query, Valid)
      && outcome == cfg.oracle.execute(before, query)
    case Formatted(prompt, reply) =>
      reply == cfg.oracle.format(before, prompt) && FormattingLinked(cfg, st0, before, prompt)
  }

  ghost predicate AllLinked(cfg: Config, st0: State, trace: seq<Event>) {
    forall i {:trigger Linked(cfg, st0, trace[..i], trace[i])} | 0 <= i < |trace| ::
      Linked(cfg, st0, trace[..i], trace[i])
  }

  lemma LinkedAppend(cfg: Config, st0: State, trace: seq<Event>, e: Event)
    requires AllLinked(cfg, st0, trace) && Linked(cfg, st0, trace, e)
    ensures AllLinked(cfg, st0, trace + [e])
  {
    var longer := trace + [e];
    forall i | 0 <= i < |longer| ensures Linked(cfg, st0, longer[..i], longer[i]) {
      if i < |trace| {
        assert longer[..i] == trace[..i];
      } else {
        assert longer[..i] == trace;
      }
    }
  }

  // ---- What holds between two executions ----

  /** The state once the intent is settled: clarification cleared, everything else as it was. */
  function Settled(st0: State, intent: string): State {
    st0.(intent := Some(intent), lastClarification := None, ambiguityCount := 0)
  }

  predicate Counts(trace: seq<Event>, generations: nat, validations: nat, executions: nat) {
    && |trace| == 1 + generations + validations + executions
    && Count(trace, Generator) == generations
    && Count(trace, Validator) == validations
    && Count(trace, Executor) == executions
  }

  predicate AtGenerator(cfg: Config, st0: State, st: State, trace: seq<Event>) {
    var r := st.retryCount;
    && IsAnswerable(trace)
    && r <= Clamp(cfg.limits.maxRetries)
    && Counts(trace, r, r, r)
    && st == Settled(st0, IntentOf(trace)).(
               status := Generating, retryCount := r, sql := st.sql, sqlError := st.sqlError)
    && (r > 0 ==>
          && IsRetryPoint(trace)
          && st.sql == Some(Last(trace).query) && st.sqlError == Some(Last(trace).outcome.message))
  }

  predicate AtValidator(cfg: Config, st0: State, st: State, trace: seq<Event>) {
    var r := st.retryCount;
    && IsAnswerable(trace)
    && r <= Clamp(cfg.limits.maxRetries)
    && Counts(trace, r + 1, r, r)
    && Last(trace).Generated? && Last(trace).sqlReply.Text?
    && st == Settled(st0, IntentOf(trace)).(
               status := Validating, retryCount := r, sql := Some(Strip(Last(trace).sqlReply.content)))
  }

  predicate AtExecutor(cfg: Config, st0: State, st: State, trace: seq<Event>) {
    var r := st.retryCount;
    && IsAnswerable(trace)
    && r <= Clamp(cfg.limits.maxRetries)
    && Counts(trace, r + 1, r + 1, r)
    && Last(trace).Validated? && Last(trace).verdict.Valid?
    && st == Settled(st0, IntentOf(trace)).(
               status := Executing, retryCount := r, sql := Some(Last(trace).sql))
  }

  predicate AtFormatter(cfg: Config, st0: State, st: State, trace: seq<Event>) {
    var r := st.retryCount;
    && IsAnswerable(trace)
    && r <= Clamp(cfg.limits.maxRetries)
    && Counts(trace, r + 1, r + 1, r + 1)
    && Last(trace).Executed? && Last(trace).outcome.Rows?
    && st == Settled(st0, IntentOf(trace)).(
               status := Formatting, retryCount := r, sql := Some(Last(trace).query),
               dbResults := Some(Last(trace).outcome.rows))
  }

  // ---- The ways a run ends ----

  datatype Ending =
    | Answered
    | Clarifying
    | FormatError
    | OutOfScope
    | TooManyRounds
    | SqlRejected
    | RetriesExhausted

  /** The classifier's answer, for a run that ended with the analysis. */
  predicate Replied(trace: seq<Event>, status: string) {
    |trace| == 1 && trace[0].Analyzed? && trace[0].reply.Object? && trace[0].reply.status == Str(status)
  }

  /** Each way to end, with the final state it leaves, field by field. */
  predicate EndsAs(cfg: Config, st0: State, p: Point, ending: Ending) {
    var trace, n := p.trace, |p.trace|;
    && p.phase == Finished
    && trace != [] && trace[0].Analyzed?
    && match ending
       case Clarifying =>
         && Replied(trace, "ambiguous") && st0.ambiguityCount < cfg.limits.maxRounds
         && var asked := Get(trace[0].reply.clarification, DEFAULT_CLARIFICATION);
            p.st == st0.(status := AskingClarification, intent := Some(IntentOf(trace)), answer := asked,
                         lastClarification := asked, ambiguityCount := st0.ambiguityCount + 1)
       case FormatError =>
         && n == 1 && trace[0].reply == NotJson
         && p.st == st0.(status := Error, intent := Some(IntentOf(trace)), answer := Some(BAD_CLASSIFICATION))
       case TooManyRounds =>
         && Replied(trace, "ambiguous") && st0.ambiguityCount >= cfg.limits.maxRounds
         && p.st == st0.(status := Error, intent := Some(IntentOf(trace)), answer := Some(TOO_AMBIGUOUS))
       case OutOfScope =>
         && !Replied(trace, "ambiguous") && !Replied(trace, "answerable")
         && n == 1 && trace[0].reply.Object?
         && p.st == st0.(status := Error, intent := Some(IntentOf(trace)),
                         answer := Get(trace[0].reply.reason, DEFAULT_REASON))
       case SqlRejected =>
         && IsAnswerable(trace) && Last(trace).Validated? && !Last(trace).verdict.Valid?
         && p.st.retryCount <= Clamp(cfg.limits.maxRetries)
         && Counts(trace, p.st.retryCount + 1, p.st.retryCount + 1, p.st.retryCount)
         && p.st == Settled(st0, IntentOf(trace)).(
                      status := Error, retryCount := p.st.retryCount, sql := Some(Last(trace).sql),
                      answer := Some(REJECTED_PREFIX + Last(trace).verdict.Message()))
       case RetriesExhausted =>
         && IsAnswerable(trace) && Last(trace).Executed? && Last(trace).outcome.Failed?
         && p.st.retryCount == Clamp(cfg.limits.maxRetries)
         && Counts(trace, p.st.retryCount + 1, p.st.retryCount + 1, p.st.retryCount + 1)
         && p.st == Settled(st0, IntentOf(trace)).(
                      status := Error, retryCount := p.st.retryCount, sql := Some(Last(trace).query),
                      sqlError := Some(Last(trace).outcome.message), answer := Some(RETRIES_EXHAUSTED))
       case Answered =>
         && IsAnswerable(trace) && n >= 2 && Last(trace).Formatted? && Last(trace).answerReply.Text?
         && trace[n - 2].Executed? && trace[n - 2].outcome.Rows?
         && p.st.retryCount <= Clamp(cfg.limits.maxRetries)
         && Counts(trace[..n - 1], p.st.retryCount + 1, p.st.retryCount + 1, p.st.retryCount + 1)
         && p.st == Settled(st0, IntentOf(trace)).(
                      status := Done, retryCount := p.st.retryCount, sql := Some(trace[n - 2].query),
                      dbResults := Some(trace[n - 2].outcome.rows),
                      answer := Some(Strip(Last(trace).answerReply.content)))
  }

  function EndingOf(trace: seq<Event>, maxRounds: int, asked: nat): Ending
    requires trace != []
  {
    match Last(trace)
    case Formatted(_, _) => Answered
    case Validated(_, _) => SqlRejected
    case Executed(_, _) => RetriesExhausted
    case _ =>
      if trace[0].Analyzed? && trace[0].reply.NotJson? then FormatError
      else if Replied(trace, "ambiguous") then (if asked < maxRounds then Clarifying else TooManyRounds)
      else OutOfScope
  }

  /** The last execution of an aborted run is a call to the model that failed, or a reply that is no object. */
  predicate EndsByRaising(cfg: Config, trace: seq<Event>) {
    && trace != []
    && |trace| <= 3 * Clamp(cfg.limits.maxRetries) + 5
    && match Last(trace)
       case MergeFailed(_) => true
       case Analyzed(_, _, reply) => reply.ClassifierRaises? || reply.NotObject?
       case Generated(_, reply) => reply.LlmRaises?
       case Formatted(_, reply) => reply.LlmRaises?
       case _ => false
  }

  /** What holds at each point of a run, besides the links. */
  predicate Between(cfg: Config, st0: State, p: Point) {
    match p.phase
    case At(Analyzer) => p.st == st0 && p.trace == []
    case At(Generator) => AtGenerator(cfg, st0, p.st, p.trace)
    case At(Validator) => AtValidator(cfg, st0, p.st, p.trace)
    case At(Executor) => AtExecutor(cfg, st0, p.st, p.trace)
    case At(Formatter) => AtFormatter(cfg, st0, p.st, p.trace)
    case Finished =>
      p.trace != [] && EndsAs(cfg, st0, p, EndingOf(p.trace, cfg.limits.maxRounds, st0.ambiguityCount))
    case Aborted => EndsByRaising(cfg, p.trace)
    case Stuck => false
  }

  /** The step added one execution, linked to those before it, and leads to a point as described. */
  predicate GoodStep(cfg: Config, st0: State, p: Point, q: Point) {
    && q.trace != []
    && q.trace == p.trace + [Last(q.trace)]
    && Linked(cfg, st0, p.trace, Last(q.trace))
    && Between(cfg, st0, q)
  }

  // ---- One node at a time: the execution is linked, and the next point is as described ----

  lemma StepAppends(cfg: Config, p: Point)
    requires p.phase.At?
    ensures var q := Step(cfg, p);
            var e := Execute(cfg, p.phase.node, p.st, p.trace).event;
            q.trace == p.trace + [e] && Last(q.trace) == e
  {
  }

  lemma AfterClassify(cfg: Config, st0: State, merge: Option<MergerPrompt>, intent: string)
    requires IsFresh(st0)
    ensures match Classify(cfg, st0, merge, intent)
            case Raised(e) => EndsByRaising(cfg, [e])
            case Returned(e, u) =>
              var st := Apply(st0, u);
              Between(cfg, st0, Point(PhaseOf(Route(Analyzer, st.status)), st, [e]))
  {
    var e := Classify(cfg, st0, merge, intent).event;
    assert Last([e]) == e;
  }

  lemma AnalysisIsLinked(cfg: Config, st0: State)
    ensures Linked(cfg, st0, [], QuestionAnalyzer(cfg, st0).event)
  {
  }

  lemma AfterAnalyzer(cfg: Config, st0: State, p: Point)
    requires IsFresh(st0) && p.phase == At(Analyzer) && Between(cfg, st0, p)
    ensures GoodStep(cfg, st0, p, Step(cfg, p))
  {
    var e := QuestionAnalyzer(cfg, st0).event;
    StepAppends(cfg, p);
    assert p.trace + [e] == [e];
    AnalysisIsLinked(cfg, st0);
    if e.Analyzed? {
      AfterClassify(cfg, st0, e.merge, e.classifier.intent);
    }
  }

  lemma CountsAppend(trace: seq<Event>, e: Event, g: nat, v: nat, x: nat)
    requires Counts(trace, g, v, x)
    ensures e.Generated? ==> Counts(trace + [e], g + 1, v, x)
    ensures e.Validated? ==> Counts(trace + [e], g, v + 1, x)
    ensures e.Executed? ==> Counts(trace + [e], g, v, x + 1)
  {
    CountAppend(trace, e, Generator);
    CountAppend(trace, e, Validator);
    CountAppend(trace, e, Executor);
  }

  lemma GenerationIsLinked(cfg: Config, st0: State, st: State, trace: seq<Event>)
    requires IsFresh(st0) && AtGenerator(cfg, st0, st, trace)
    ensures Linked(cfg, st0, trace, SqlGenerator(cfg, st, trace).event)
  {
    var retrying := st.retryCount > 0;
    SqlPartsReadBack(
      st.schemaContext, cfg.limits.fewShot, st.history, AskedIn(st0, trace),
      if retrying then st.sql else None, if retrying then st.sqlError else None);
  }

  lemma GeneratorLeadsOn(cfg: Config, st0: State, st: State, trace: seq<Event>)
    requires IsFresh(st0) && AtGenerator(cfg, st0, st, trace) && SqlGenerator(cfg, st, trace).Returned?
    ensures var visit := SqlGenerator(cfg, st, trace);
            AtValidator(cfg, st0, Apply(st, visit.update), trace + [visit.event])
  {
    var r := st.retryCount;
    CountsAppend(trace, SqlGenerator(cfg, st, trace).event, r, r, r);
  }

  lemma AfterGenerator(cfg: Config, st0: State, p: Point)
    requires IsFresh(st0) && p.phase == At(Generator) && Between(cfg, st0, p)
    ensures GoodStep(cfg, st0, p, Step(cfg, p))
  {
    var r := p.st.retryCount;
    StepAppends(cfg, p);
    GenerationIsLinked(cfg, st0, p.st, p.trace);
    if SqlGenerator(cfg, p.st, p.trace).Returned? {
      GeneratorLeadsOn(cfg, st0, p.st, p.trace);
    } else {
      CountsAppend(p.trace, SqlGenerator(cfg, p.st, p.trace).event, r, r, r);
    }
  }

  lemma ValidatorAccepts(cfg: Config, st0: State, st: State, trace: seq<Event>)
    requires IsFresh(st0) && AtValidator(cfg, st0, st, trace) && SqlValidator(st).event.verdict.Valid?
    ensures var visit := SqlValidator(st);
            AtExecutor(cfg, st0, Apply(st, visit.update), trace + [visit.event])
  {
    var r := st.retryCount;
    CountsAppend(trace, SqlValidator(st).event, r + 1, r, r);
  }

  lemma ValidatorRejects(cfg: Config, st0: State, st: State, trace: seq<Event>)
    requires IsFresh(st0) && AtValidator(cfg, st0, st, trace) && !SqlValidator(st).event.verdict.Valid?
    ensures var visit := SqlValidator(st);
            EndsAs(cfg, st0, Point(Finished, Apply(st, visit.update), trace + [visit.event]), SqlRejected)
  {
    var r := st.retryCount;
    CountsAppend(trace, SqlValidator(st).event, r + 1, r, r);
  }

  lemma ValidationIsLinked(cfg: Config, st0: State, st: State, trace: seq<Event>)
    requires AtValidator(cfg, st0, st, trace)
    ensures Linked(cfg, st0, trace, SqlValidator(st).event)
  {
  }

  lemma ValidatorSteps(cfg: Config, p: Point)
    requires p.phase == At(Validator)
    ensures var visit := SqlValidator(p.st);
            Step(cfg, p)
            == Point(if visit.event.verdict.Valid? then At(Executor) else Finished,
                     Apply(p.st, visit.update), p.trace + [visit.event])
  {
  }

  lemma AfterValidator(cfg: Config, st0: State, p: Point)
    requires IsFresh(st0) && p.phase == At(Validator) && Between(cfg, st0, p)
    ensures GoodStep(cfg, st0, p, Step(cfg, p))
  {
    ValidatorSteps(cfg, p);
    ValidationIsLinked(cfg, st0, p.st, p.trace);
    var visit := SqlValidator(p.st);
    assert Last(p.trace + [visit.event]) == visit.event;
    if visit.event.verdict.Valid? {
      ValidatorAccepts(cfg, st0, p.st, p.trace);
    } else {
      ValidatorRejects(cfg, st0, p.st, p.trace);
    }
  }

  lemma LastIsLinked(cfg: Config, st0: State, trace: seq<Event>) returns (before: seq<Event>)
    requires AllLinked(cfg, st0, trace) && trace != []
    ensures trace == before + [Last(trace)] && Linked(cfg, st0, before, Last(trace))
  {
    before := trace[..|trace| - 1];
    assert Linked(cfg, st0, trace[..|trace| - 1], trace[|trace| - 1]);
  }

  /** The SQL just executed is that of the generation before its validation. */
  lemma ExecutedSqlWasGenerated(
    cfg: Config, st0: State, before: seq<Event>, validation: Event, trace: seq<Event>, e: Event)
    requires trace == before + [validation] && Linked(cfg, st0, before, validation) && |before| >= 2
    requires e.Executed? && e.outcome.Failed? && validation == Validated(e.query, Valid)
    ensures IsRetryPoint(trace + [e])
  {
    assert (trace + [e])[|before| - 1] == Last(before);
  }

  lemma FailureIsRetryPoint(cfg: Config, st0: State, trace: seq<Event>, e: Event)
    requires AllLinked(cfg, st0, trace) && |trace| >= 3
    requires e.Executed? && e.outcome.Failed? && Last(trace) == Validated(e.query, Valid)
    ensures IsRetryPoint(trace + [e])
  {
    var before := LastIsLinked(cfg, st0, trace);
    ExecutedSqlWasGenerated(cfg, st0, before, Last(trace), trace, e);
  }

  lemma ExecutorSucceeds(cfg: Config, st0: State, p: Point)
    requires IsFresh(st0) && AtExecutor(cfg, st0, p.st, p.trace) && p.phase == At(Executor)
    requires SqlExecutor(cfg, p.st, p.trace).event.outcome.Rows?
    ensures var q := Step(cfg, p);
            q.phase == At(Formatter) && AtFormatter(cfg, st0, q.st, q.trace)
  {
    var r := p.st.retryCount;
    CountsAppend(p.trace, SqlExecutor(cfg, p.st, p.trace).event, r + 1, r + 1, r);
  }

  lemma ExecutorRetries(cfg: Config, st0: State, p: Point)
    requires IsFresh(st0) && AtExecutor(cfg, st0, p.st, p.trace) && p.phase == At(Executor)
    requires SqlExecutor(cfg, p.st, p.trace).event.outcome.Failed? && p.st.retryCount < cfg.limits.maxRetries
    requires IsRetryPoint(p.trace + [SqlExecutor(cfg, p.st, p.trace).event])
    ensures var q := Step(cfg, p);
            q.phase == At(Generator) && AtGenerator(cfg, st0, q.st, q.trace)
  {
    var r := p.st.retryCount;
    CountsAppend(p.trace, SqlExecutor(cfg, p.st, p.trace).event, r + 1, r + 1, r);
  }

  lemma ExecutorGivesUp(cfg: Config, st0: State, p: Point)
    requires IsFresh(st0) && AtExecutor(cfg, st0, p.st, p.trace) && p.phase == At(Executor)
    requires SqlExecutor(cfg, p.st, p.trace).event.outcome.Failed? && p.st.retryCount >= cfg.limits.maxRetries
    ensures EndsAs(cfg, st0, Step(cfg, p), RetriesExhausted)
  {
    var r := p.st.retryCount;
    CountsAppend(p.trace, SqlExecutor(cfg, p.st, p.trace).event, r + 1, r + 1, r);
  }

  lemma ExecutionIsLinked(cfg: Config, st0: State, st: State, trace: seq<Event>)
    requires AtExecutor(cfg, st0, st, trace)
    ensures Linked(cfg, st0, trace, SqlExecutor(cfg, st, trace).event)
    ensures |trace| >= 3 && Last(trace) == Validated(SqlExecutor(cfg, st, trace).event.query, Valid)
  {
  }

  lemma AfterExecutor(cfg: Config, st0: State, p: Point)
    requires IsFresh(st0) && p.phase == At(Executor) && Between(cfg, st0, p)
    requires AllLinked(cfg, st0, p.trace)
    ensures GoodStep(cfg, st0, p, Step(cfg, p))
  {
    var e := SqlExecutor(cfg, p.st, p.trace).event;
    StepAppends(cfg, p);
    ExecutionIsLinked(cfg, st0, p.st, p.trace);
    if e.outcome.Rows? {
      ExecutorSucceeds(cfg, st0, p);
    } else if p.st.retryCount < cfg.limits.maxRetries {
      FailureIsRetryPoint(cfg, st0, p.trace, e);
      ExecutorRetries(cfg, st0, p);
    } else {
      ExecutorGivesUp(cfg, st0, p);
    }
  }

  lemma FormattingIsLinked(cfg: Config, st0: State, st: State, trace: seq<Event>)
    requires AtFormatter(cfg, st0, st, trace)
    ensures Linked(cfg, st0, trace, AnswerFormatter(cfg, st, trace).event)
  {
  }

  lemma FormatterAnswers(cfg: Config, st0: State, st: State, trace: seq<Event>)
    requires IsFresh(st0) && AtFormatter(cfg, st0, st, trace) && AnswerFormatter(cfg, st, trace).Returned?
    ensures var visit := AnswerFormatter(cfg, st, trace);
            EndsAs(cfg, st0, Point(Finished, Apply(st, visit.update), trace + [visit.event]), Answered)
  {
    var e := AnswerFormatter(cfg, st, trace).event;
    assert (trace + [e])[..|trace|] == trace;
  }

  lemma AfterFormatter(cfg: Config, st0: State, p: Point)
    requires IsFresh(st0) && p.phase == At(Formatter) && Between(cfg, st0, p)
    ensures GoodStep(cfg, st0, p, Step(cfg, p))
  {
    StepAppends(cfg, p);
    FormattingIsLinked(cfg, st0, p.st, p.trace);
    if AnswerFormatter(cfg, p.st, p.trace).Returned? {
      FormatterAnswers(cfg, st0, p.st, p.trace);
    }
  }

  lemma {:induction false} RunStaysGood(cfg: Config, st0: State, p: Point)
    requires IsFresh(st0) && AllLinked(cfg, st0, p.trace) && Between(cfg, st0, p)
    ensures var q := Run(cfg, p);
            !q.phase.At? && AllLinked(cfg, st0, q.trace) && Between(cfg, st0, q)
    decreases RetriesLeft(cfg.limits, p.st), Rank(p.phase)
  {
    if p.phase.At? {
      match p.phase.node {
        case Analyzer => AfterAnalyzer(cfg, st0, p);
        case Generator => AfterGenerator(cfg, st0, p);
        case Validator => AfterValidator(cfg, st0, p);
        case Executor => AfterExecutor(cfg, st0, p);
        case Formatter => AfterFormatter(cfg, st0, p);
      }
      var q := Step(cfg, p);
      LinkedAppend(cfg, st0, p.trace, Last(q.trace));
      StepDescends(cfg, p);
      RunStaysGood(cfg, st0, q);
    }
  }
}
