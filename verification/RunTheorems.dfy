/** The main results about runs of the graph, from a fresh state and under any oracle. */
module RunTheorems {
  import opened Wrappers
  import opened PyText
  import opened SqlTokens
  import opened SqlGuards
  import opened AgentState
  import opened Prompts
  import opened Nodes
  import opened Graph
  import opened GraphRuns

  function RunOf(cfg: Config, st0: State): Point {
    Run(cfg, Start(st0))
  }

  lemma RunIsGood(cfg: Config, st0: State)
    requires IsFresh(st0)
    ensures var p := RunOf(cfg, st0);
            !p.phase.At? && AllLinked(cfg, st0, p.trace) && Between(cfg, st0, p)
  {
    RunStaysGood(cfg, st0, Start(st0));
  }

  // ---- Termination and endings ----

  lemma EndingIsUnique(cfg: Config, st0: State, p: Point, e: Ending, e': Ending)
    requires EndsAs(cfg, st0, p, e) && EndsAs(cfg, st0, p, e')
    ensures e == e'
  {
    assert Last(p.trace) == p.trace[|p.trace| - 1];
  }

  lemma EndingBoundsTrace(cfg: Config, st0: State, p: Point, e: Ending)
    requires EndsAs(cfg, st0, p, e)
    ensures |p.trace| <= 3 * (Clamp(cfg.limits.maxRetries) + 1) + 2
  {
  }

  /**
   No run gets stuck and none goes on for ever: it finishes in exactly one of the listed ways or is cut short by an
   exception of the model, after at most three executions per attempt and two more.
   */
  lemma EveryRunEnds(cfg: Config, st0: State)
    requires IsFresh(st0)
    ensures var p := RunOf(cfg, st0);
            && (p.phase == Finished || p.phase == Aborted)
            && (p.phase == Finished ==>
                  exists e :: EndsAs(cfg, st0, p, e) && forall e' | EndsAs(cfg, st0, p, e') :: e' == e)
            && (p.phase == Aborted ==> EndsByRaising(cfg, p.trace))
            && |p.trace| <= 3 * (Clamp(cfg.limits.maxRetries) + 1) + 2
  {
    RunIsGood(cfg, st0);
    var p := RunOf(cfg, st0);
    if p.phase == Finished {
      var e := EndingOf(p.trace, cfg.limits.maxRounds, st0.ambiguityCount);
      EndingBoundsTrace(cfg, st0, p, e);
      forall e' | EndsAs(cfg, st0, p, e') ensures e' == e {
        EndingIsUnique(cfg, st0, p, e, e');
      }
    }
  }

  lemma StatusTellsEnding(cfg: Config, st0: State, p: Point, e: Ending)
    requires IsFresh(st0) && EndsAs(cfg, st0, p, e)
    ensures p.st.status == Done <==> e == Answered
    ensures p.st.status == AskingClarification <==> e == Clarifying
    ensures p.st.status == Error <==> e != Answered && e != Clarifying
    ensures p.st.sqlError.Some? <==> e == RetriesExhausted
    ensures p.st.dbResults.Some? <==> e == Answered
    ensures e == Clarifying ==> p.st.sql == None && p.st.answer == p.st.lastClarification
  {
  }

  // ---- What is classified as answerable ----

  lemma SecondEventIsGeneration(cfg: Config, st0: State, trace: seq<Event>)
    requires AllLinked(cfg, st0, trace) && |trace| > 1
    ensures trace[1].Generated? && IsAnswerable(trace)
  {
    LinkedAt(cfg, st0, trace, 0);
    LinkedAt(cfg, st0, trace, 1);
    assert trace[..1][0] == trace[0];
  }

  /** A run goes on to generate SQL iff the classifier's object has the status "answerable", by that very key. */
  lemma GeneratesIffAnswerable(cfg: Config, st0: State)
    requires IsFresh(st0)
    ensures var trace := RunOf(cfg, st0).trace;
            && trace != []
            && (|trace| > 1 <==>
                  trace[0].Analyzed? && trace[0].reply.Object? && trace[0].reply.status == Str("answerable"))
            && (|trace| > 1 ==> trace[1].Generated?)
  {
    RunIsGood(cfg, st0);
    var trace := RunOf(cfg, st0).trace;
    if |trace| > 1 {
      SecondEventIsGeneration(cfg, st0, trace);
    }
  }

  // ---- Exact counts ----

  lemma CountOne(e: Event, node: Node)
    ensures Count([e], node) == if NodeOf(e) == node then 1 else 0
  {
    CountAppend([], e, node);
    assert [] + [e] == [e];
  }

  lemma NoGenerationAfterAnalysis(cfg: Config, st0: State, p: Point, e: Ending)
    requires EndsAs(cfg, st0, p, e) && e !in {Answered, SqlRejected, RetriesExhausted}
    ensures Count(p.trace, Generator) == 0
  {
    assert p.trace == [p.trace[0]];
    CountOne(p.trace[0], Generator);
  }

  lemma CountsOfEnding(cfg: Config, st0: State, p: Point, e: Ending)
    requires EndsAs(cfg, st0, p, e) && e in {Answered, SqlRejected, RetriesExhausted}
    ensures Count(p.trace, Generator) == Count(p.trace, Validator) == p.st.retryCount + 1
    ensures Count(p.trace, Executor) == p.st.retryCount + if Last(p.trace).Validated? then 0 else 1
    ensures p.st.retryCount <= Clamp(cfg.limits.maxRetries)
  {
    if e == Answered {
      var n := |p.trace| - 1;
      assert p.trace == p.trace[..n] + [p.trace[n]];
      CountAppend(p.trace[..n], p.trace[n], Generator);
      CountAppend(p.trace[..n], p.trace[n], Validator);
      CountAppend(p.trace[..n], p.trace[n], Executor);
    }
  }

  /**
   Once a finished run generates, it generates and validates once per retry and once more; it executes as often,
   except that a text rejected at the end is not executed.
   */
  lemma CountsAreExact(cfg: Config, st0: State)
    requires IsFresh(st0)
    ensures var p := RunOf(cfg, st0);
            p.phase == Finished && Count(p.trace, Generator) > 0 ==>
              && Count(p.trace, Generator) == Count(p.trace, Validator) == p.st.retryCount + 1
              && Count(p.trace, Executor) == p.st.retryCount + (if Last(p.trace).Validated? then 0 else 1)
              && p.st.retryCount <= Clamp(cfg.limits.maxRetries)
  {
    RunIsGood(cfg, st0);
    var p := RunOf(cfg, st0);
    if p.phase == Finished {
      var e := EndingOf(p.trace, cfg.limits.maxRounds, st0.ambiguityCount);
      if e in {Answered, SqlRejected, RetriesExhausted} {
        CountsOfEnding(cfg, st0, p, e);
      } else {
        NoGenerationAfterAnalysis(cfg, st0, p, e);
      }
    }
  }

  // ---- Validation before execution ----

  lemma LinkedAt(cfg: Config, st0: State, trace: seq<Event>, i: nat)
    requires AllLinked(cfg, st0, trace) && i < |trace|
    ensures Linked(cfg, st0, trace[..i], trace[i])
  {
  }

  lemma ExecutionFollowsValidation(cfg: Config, st0: State, trace: seq<Event>, i: nat)
    requires AllLinked(cfg, st0, trace) && i < |trace| && trace[i].Executed?
    ensures i >= 2 && trace[i - 1] == Validated(trace[i].query, Valid)
    ensures trace[i - 2].Generated? && trace[i - 2].sqlReply.Text?
    ensures trace[i].query == Strip(trace[i - 2].sqlReply.content)
    ensures ValidateSql(trace[i].query).Valid?
  {
    LinkedAt(cfg, st0, trace, i);
    LinkedAt(cfg, st0, trace, i - 1);
    assert trace[..i - 1][i - 2] == trace[i - 2];
  }

  /** Only an accepted validation is followed by another execution. */
  lemma FollowedValidationAccepted(cfg: Config, st0: State, trace: seq<Event>, i: nat)
    requires AllLinked(cfg, st0, trace) && i + 1 < |trace| && trace[i].Validated?
    ensures trace[i].verdict.Valid?
  {
    LinkedAt(cfg, st0, trace, i + 1);
    assert Last(trace[..i + 1]) == trace[i];
  }

  /** An executed text was just generated and is a single query without blocked tokens; a rejection is the end. */
  ghost predicate IsGuardedAt(trace: seq<Event>, i: nat)
    requires i < |trace|
  {
    match trace[i]
    case Executed(query, _) =>
      && i >= 2 && trace[i - 2].Generated? && trace[i - 2].sqlReply.Text?
      && query == Strip(trace[i - 2].sqlReply.content)
      && OpensWithSelect(query) && SingleStatement(query)
      && !HasListedToken(query, BLOCKED_KEYWORDS) && !HasListedToken(query, BLOCKED_SCHEMAS)
    case Validated(_, verdict) => verdict.Valid? || i == |trace| - 1
    case _ => true
  }

  lemma LinkedIsGuarded(cfg: Config, st0: State, trace: seq<Event>, i: nat)
    requires AllLinked(cfg, st0, trace) && i < |trace|
    ensures IsGuardedAt(trace, i)
  {
    match trace[i] {
      case Executed(query, _) =>
        ExecutionFollowsValidation(cfg, st0, trace, i);
        VerdictIsFirstFailingGuard(query);
      case Validated(_, verdict) =>
        if i + 1 < |trace| { FollowedValidationAccepted(cfg, st0, trace, i); }
      case _ =>
    }
  }

  /**
   In every run, finished or not, what reaches the database is the text just generated, stripped, and it has the
   shape of a single query without blocked tokens; a rejected text is where the run ends.
   */
  lemma OnlyValidatedSqlIsExecuted(cfg: Config, st0: State)
    requires IsFresh(st0)
    ensures var trace := RunOf(cfg, st0).trace;
            forall i | 0 <= i < |trace| :: IsGuardedAt(trace, i)
  {
    RunIsGood(cfg, st0);
    var trace := RunOf(cfg, st0).trace;
    forall i | 0 <= i < |trace| ensures IsGuardedAt(trace, i) {
      LinkedIsGuarded(cfg, st0, trace, i);
    }
  }

  // ---- Retry context ----

  lemma CountUpTo(trace: seq<Event>, i: nat, node: Node)
    requires i < |trace|
    ensures Count(trace[..i + 1], node) == Count(trace[..i], node) + if NodeOf(trace[i]) == node then 1 else 0
  {
    assert trace[..i + 1][..i] == trace[..i];
  }

  /** What the k-th generation of a run is told about the one before it. */
  predicate RetryContextIsFaithful(trace: seq<Event>, i: nat)
    requires i < |trace| && trace[i].Generated?
  {
    var block, earlier := RetryBlock(trace[i].prompt), Count(trace[..i], Generator);
    && (earlier == 0 ==> block == None)
    && (earlier > 0 ==>
          && i >= 3
          && Count(trace[..i - 3], Generator) == earlier - 1
          && trace[i - 3].Generated? && trace[i - 3].sqlReply.Text?
          && trace[i - 1].Executed? && trace[i - 1].outcome.Failed?
          && trace[i - 1].query == Strip(trace[i - 3].sqlReply.content)
          && block == Some((trace[i - 1].query, trace[i - 1].outcome.message)))
  }

  lemma FirstEventIsAnalysis(cfg: Config, st0: State, trace: seq<Event>)
    requires AllLinked(cfg, st0, trace) && trace != []
    ensures NodeOf(trace[0]) == Analyzer
  {
    LinkedAt(cfg, st0, trace, 0);
  }

  lemma CountOverAttempt(trace: seq<Event>, i: nat)
    requires 3 <= i <= |trace|
    requires trace[i - 3].Generated? && trace[i - 2].Validated? && trace[i - 1].Executed?
    ensures Count(trace[..i], Generator) == Count(trace[..i - 3], Generator) + 1
  {
    CountUpTo(trace, i - 1, Generator);
    CountUpTo(trace, i - 2, Generator);
    CountUpTo(trace, i - 3, Generator);
  }

  lemma RetryPointInTrace(trace: seq<Event>, i: nat)
    requires i <= |trace| && IsRetryPoint(trace[..i])
    ensures i >= 4
    ensures trace[i - 1].Executed? && trace[i - 1].outcome.Failed? && Last(trace[..i]) == trace[i - 1]
    ensures trace[i - 3].Generated? && trace[i - 3].sqlReply.Text?
    ensures trace[i - 1].query == Strip(trace[i - 3].sqlReply.content)
  {
    assert trace[..i][i - 1] == trace[i - 1] && trace[..i][i - 3] == trace[i - 3];
  }

  lemma LinkedGeneration(cfg: Config, st0: State, before: seq<Event>, e: Event)
    requires Linked(cfg, st0, before, e) && e.Generated?
    ensures before != []
    ensures if |before| == 1 then RetryBlock(e.prompt) == None
            else IsRetryPoint(before)
                 && RetryBlock(e.prompt) == Some((Last(before).query, Last(before).outcome.message))
  {
  }

  lemma RetryIsFaithful(trace: seq<Event>, i: nat)
    requires i < |trace| && trace[i].Generated? && IsRetryPoint(trace[..i])
    requires trace[i - 2].Validated?
    requires RetryBlock(trace[i].prompt) == Some((Last(trace[..i]).query, Last(trace[..i]).outcome.message))
    ensures RetryContextIsFaithful(trace, i)
  {
    RetryPointInTrace(trace, i);
    CountOverAttempt(trace, i);
  }

  lemma FirstIsFaithful(trace: seq<Event>)
    requires |trace| > 1 && NodeOf(trace[0]) == Analyzer && trace[1].Generated? && RetryBlock(trace[1].prompt) == None
    ensures RetryContextIsFaithful(trace, 1)
  {
    CountUpTo(trace, 0, Generator);
  }

  lemma GenerationIsFaithful(cfg: Config, st0: State, trace: seq<Event>, i: nat)
    requires AllLinked(cfg, st0, trace) && i < |trace| && trace[i].Generated?
    ensures RetryContextIsFaithful(trace, i)
  {
    LinkedAt(cfg, st0, trace, i);
    LinkedGeneration(cfg, st0, trace[..i], trace[i]);
    if i == 1 {
      FirstEventIsAnalysis(cfg, st0, trace);
      FirstIsFaithful(trace);
    } else {
      RetryPointInTrace(trace, i);
      ExecutionFollowsValidation(cfg, st0, trace, i - 1);
      RetryIsFaithful(trace, i);
    }
  }

  /**
   In every run the k-th generation prompt carries a retry block iff k > 1, and that block holds the SQL of
   generation k - 1 and the error which that SQL raised.
   */
  lemma RetryPromptsAreFaithful(cfg: Config, st0: State)
    requires IsFresh(st0)
    ensures var trace := RunOf(cfg, st0).trace;
            forall i | 0 <= i < |trace| && trace[i].Generated? :: RetryContextIsFaithful(trace, i)
  {
    RunIsGood(cfg, st0);
    var trace := RunOf(cfg, st0).trace;
    forall i | 0 <= i < |trace| && trace[i].Generated? ensures RetryContextIsFaithful(trace, i) {
      GenerationIsFaithful(cfg, st0, trace, i);
    }
  }

  /** An answered run holds the accepted SQL it generated last, the rows that SQL returned, and no error. */
  predicate HoldsItsEvidence(p: Point) {
    var trace, n := p.trace, |p.trace|;
    && n >= 4 && p.st.sql.Some? && p.st.dbResults.Some? && p.st.sqlError == None
    && trace[n - 2] == Executed(p.st.sql.value, Rows(p.st.dbResults.value))
    && trace[n - 4].Generated? && trace[n - 4].sqlReply.Text?
    && p.st.sql.value == Strip(trace[n - 4].sqlReply.content)
    && ValidateSql(p.st.sql.value).Valid?
  }

  /** The last execution of an answered run, as the final state records it. */
  predicate RecordsExecution(p: Point, i: nat) {
    && i < |p.trace| && p.trace[i].Executed?
    && p.st.sql == Some(p.trace[i].query) && p.st.sqlError == None
    && p.trace[i].outcome.Rows? && p.st.dbResults == Some(p.trace[i].outcome.rows)
  }

  lemma RecordedExecutionIsEvidence(cfg: Config, st0: State, p: Point)
    requires AllLinked(cfg, st0, p.trace) && |p.trace| >= 2 && RecordsExecution(p, |p.trace| - 2)
    ensures HoldsItsEvidence(p)
  {
    ExecutionFollowsValidation(cfg, st0, p.trace, |p.trace| - 2);
  }

  lemma AnsweredRecordsExecution(cfg: Config, st0: State, p: Point)
    requires IsFresh(st0) && EndsAs(cfg, st0, p, Answered)
    ensures |p.trace| >= 2 && RecordsExecution(p, |p.trace| - 2)
  {
  }

  const ERRORS: set<Ending> := {FormatError, OutOfScope, TooManyRounds, SqlRejected, RetriesExhausted}

  /**
   The final status of a finished run says what its state holds: the evidence for an answer, a clarification question
   and no SQL, or an error with one of five causes, where a database error is kept iff the retries ran out.
   */
  lemma FinalStatesAreClassified(cfg: Config, st0: State)
    requires IsFresh(st0) && RunOf(cfg, st0).phase == Finished
    ensures var p := RunOf(cfg, st0);
            match p.st.status
            case Done => HoldsItsEvidence(p) && EndsAs(cfg, st0, p, Answered)
            case AskingClarification =>
              p.st.answer == p.st.lastClarification && p.st.sql == None && Count(p.trace, Generator) == 0
            case Error =>
              && (exists e :: e in ERRORS && EndsAs(cfg, st0, p, e))
              && (p.st.sqlError.Some? <==> EndsAs(cfg, st0, p, RetriesExhausted))
              && p.st.dbResults == None
            case _ => false
  {
    RunIsGood(cfg, st0);
    var p := RunOf(cfg, st0);
    var e := EndingOf(p.trace, cfg.limits.maxRounds, st0.ambiguityCount);
    StatusTellsEnding(cfg, st0, p, e);
    match e {
      case Answered =>
        AnsweredRecordsExecution(cfg, st0, p);
        RecordedExecutionIsEvidence(cfg, st0, p);
      case Clarifying => NoGenerationAfterAnalysis(cfg, st0, p, e);
      case _ =>
        if EndsAs(cfg, st0, p, RetriesExhausted) {
          EndingIsUnique(cfg, st0, p, e, RetriesExhausted);
        }
    }
  }

  // ---- What the answer is made from ----

  lemma FormattingFollowsRows(cfg: Config, st0: State, trace: seq<Event>, i: nat)
    requires AllLinked(cfg, st0, trace) && i < |trace| && trace[i].Formatted?
    ensures i >= 1 && trace[i - 1].Executed? && trace[i - 1].outcome.Rows?
    ensures trace[i].answerPrompt.rows == SliceTo(trace[i - 1].outcome.rows, cfg.limits.rowLimit)
  {
    LinkedAt(cfg, st0, trace, i);
    assert Last(trace[..i]) == trace[i - 1];
  }

  /** The model summarises a prefix of the rows just fetched, of the configured length or all but that many. */
  lemma AnswersSeeTruncatedRows(cfg: Config, st0: State)
    requires IsFresh(st0)
    ensures var trace, limit := RunOf(cfg, st0).trace, cfg.limits.rowLimit;
            forall i | 0 <= i < |trace| && trace[i].Formatted? ::
              && i >= 1 && trace[i - 1].Executed? && trace[i - 1].outcome.Rows?
              && var rows, shown := trace[i - 1].outcome.rows, trace[i].answerPrompt.rows;
                 && shown <= rows
                 && |shown| == if limit < 0 then Clamp(|rows| + limit) else if limit < |rows| then limit else |rows|
  {
    RunIsGood(cfg, st0);
    var trace := RunOf(cfg, st0).trace;
    forall i | 0 <= i < |trace| && trace[i].Formatted?
      ensures i >= 1 && trace[i - 1].Executed? && trace[i - 1].outcome.Rows?
      ensures trace[i].answerPrompt.rows == SliceTo(trace[i - 1].outcome.rows, cfg.limits.rowLimit)
    {
      FormattingFollowsRows(cfg, st0, trace, i);
    }
  }
}
