/** What a request is answered and what is saved of it, told from the last execution of its run alone. */
module Answers {
  import opened Wrappers
  import opened PyText
  import opened SqlGuards
  import opened AgentState
  import opened Nodes
  import opened Graph
  import opened GraphRuns
  import opened RunTheorems
  import opened Sessions
  import opened Conversation

  /** A text for the user taken from a key: the fallback if the key is absent, nothing if it is null. */
  predicate IsShown(key: Key, fallback: string, answer: Option<string>) {
    match key
    case Absent => answer == Some(fallback)
    case Null => answer == None
    case Str(text) => answer == Some(text)
  }

  /** A run that ends here was cut short by a call to the model that raised or by a classification that is no object. */
  predicate IsFailure(last: Event) {
    match last
    case MergeFailed(_) => true
    case Analyzed(_, _, reply) => reply.ClassifierRaises? || reply.NotObject?
    case Generated(_, reply) => reply.LlmRaises?
    case Formatted(_, reply) => reply.LlmRaises?
    case _ => false
  }

  /** The classification of a run that ends with it, and the reply; `asked` rounds went before. */
  predicate IsAnalysisReply(reply: ClassifierReply, asked: nat, maxRounds: int, response: Response)
    requires response.Reply?
  {
    match reply
    case NotJson => response == Reply(Some("Failed to classify the question."), Error, 422)
    case Object(status, clarification, reason) =>
      if status == Str("ambiguous") && asked < maxRounds then
        && IsShown(clarification, "Could you clarify your question?", response.answer)
        && response.status == AskingClarification && response.code == 200
      else if status == Str("ambiguous") then
        response == Reply(Some("Too many ambiguous questions, please rephrase from scratch."), Error, 422)
      else
        && status != Str("answerable")
        && IsShown(reason, "This question is outside the scope of the system.", response.answer)
        && response.status == Error && response.code == 422
    case _ => false
  }

  /** What the user is told of a run, by the execution that it ended with. */
  ghost predicate IsReplyTo(last: Event, asked: nat, maxRounds: int, response: Response)
    requires response.Reply?
  {
    match last
    case Analyzed(_, _, reply) => IsAnalysisReply(reply, asked, maxRounds, response)
    case Validated(sql, _) =>
      && response.answer.Some? && response.status == Error && response.code == 422
      && exists text ::
           && IsRejectionText(sql, text)
           && response.answer.value == "Generated SQL failed safety validation: " + text
    case Executed(_, Failed(_)) =>
      response == Reply(Some("Failed to execute the query after multiple attempts."), Error, 422)
    case Formatted(_, Text(content)) => response == Reply(Some(Strip(content)), Done, 200)
    case _ => false
  }

  /** The saved record: the reply's status, and the log with the question and the reply at its end. */
  predicate IsSavedWith(
    h: ConversationHistory, question: string, response: Response, saved: Option<ConversationHistory>)
    requires response.Reply?
  {
    && saved.Some? && saved.value.lastStatus == response.status
    && saved.value.turns
    == h.turns + [Turn(User, question), Turn(Assistant, if response.answer.Some? then response.answer.value else "")]
  }

  /** The rounds of clarification that went before a request. */
  function RoundsBefore(h: ConversationHistory): nat {
    if h.lastStatus == AskingClarification then h.ambiguityCount else 0
  }

  lemma RejectionIsTold(cfg: Config, st0: State, p: Point)
    requires IsFresh(st0) && AllLinked(cfg, st0, p.trace) && EndsAs(cfg, st0, p, SqlRejected)
    ensures p.st.answer.Some?
    ensures exists text ::
              && IsRejectionText(Last(p.trace).sql, text)
              && p.st.answer.value == "Generated SQL failed safety validation: " + text
  {
    LinkedAt(cfg, st0, p.trace, |p.trace| - 1);
    RejectionNamesFirstFailingGuard(Last(p.trace).sql);
    assert IsRejectionText(Last(p.trace).sql, Last(p.trace).verdict.Message());
  }

  lemma EndingIsTold(cfg: Config, st0: State, p: Point, e: Ending)
    requires IsFresh(st0) && AllLinked(cfg, st0, p.trace) && EndsAs(cfg, st0, p, e)
    ensures !IsFailure(Last(p.trace))
    ensures IsReplyTo(Last(p.trace), st0.ambiguityCount, cfg.limits.maxRounds, Responded(p.st))
  {
    if e == SqlRejected {
      RejectionIsTold(cfg, st0, p);
    }
  }

  /**
   Every request is answered according to the execution its run ended with: a failure is an internal error that saves
   nothing; anything else is answered and saved with the text that belongs to it.
   */
  lemma AnswerTellsEnding(settings: Settings, h: ConversationHistory, req: Request)
    ensures var trace, served := RunFor(settings, h, req).trace, Serve(settings, h, req);
            && trace != []
            && (IsFailure(Last(trace)) <==> served.response == InternalError)
            && (IsFailure(Last(trace)) <==> served.saved == None)
            && (!IsFailure(Last(trace)) ==>
                  && IsReplyTo(Last(trace), RoundsBefore(h), settings.limits.maxRounds, served.response)
                  && IsSavedWith(h, req.question, served.response, served.saved))
  {
    var cfg, st0 := Config(settings.limits, req.oracle), InitialState(settings, h, req);
    var p, e := ServedRun(settings, h, req);
    if p.phase == Finished {
      EndingIsTold(cfg, st0, p, e);
    }
  }

  /** Only an answer formatted by the model counts as done, and it is passed on and saved as formatted. */
  lemma DoneIffFormatted(settings: Settings, h: ConversationHistory, req: Request)
    ensures var trace, served := RunFor(settings, h, req).trace, Serve(settings, h, req);
            && trace != []
            && ((served.response.Reply? && served.response.status == Done)
                <==> Last(trace).Formatted? && Last(trace).answerReply.Text?)
            && (Last(trace).Formatted? && Last(trace).answerReply.Text? ==>
                  var text := Strip(Last(trace).answerReply.content);
                  && served.response == Reply(Some(text), Done, 200)
                  && served.saved.Some?
                  && served.saved.value.turns == h.turns + [Turn(User, req.question), Turn(Assistant, text)])
  {
    AnswerTellsEnding(settings, h, req);
  }
}
