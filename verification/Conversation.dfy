/**
 One request of a session (the body of `chat` in api/routes.py): the state built from the history, the run, and
 what is saved and answered. Then conversations: requests of one session served one after another.
 */
module Conversation {
  import opened Wrappers
  import opened PyText
  import opened AgentState
  import opened Prompts
  import opened Nodes
  import opened Graph
  import opened GraphRuns
  import opened RunTheorems
  import opened Sessions

  datatype Settings = Settings(window: int, limits: Limits)

  /** The question, the schema text injected with it, and the replies its run will get. */
  datatype Request = Request(question: string, schema: string, oracle: Oracle)

  datatype Response = Reply(answer: Option<string>, status: Status, code: nat) | InternalError

  datatype Served = Served(saved: Option<ConversationHistory>, response: Response)

  /** `turns[-window:]` with `window = conversation_history_window * 2`. */
  function Windowed(turns: seq<Turn>, window: int): seq<Turn> {
    SliceFrom(turns, -(window * 2))
  }

  predicate Continues(h: ConversationHistory) {
    h.lastStatus == AskingClarification
  }

  function InitialState(settings: Settings, h: ConversationHistory, req: Request): State {
    State(
      question := req.question,
      schemaContext := req.schema,
      sql := None,
      sqlError := None,
      retryCount := 0,
      dbResults := None,
      answer := None,
      status := Analyzing,
      history := Windowed(h.turns, settings.window),
      intent := if Continues(h) then h.intent else None,
      lastClarification := if Continues(h) then h.lastClarification else None,
      ambiguityCount := if Continues(h) then h.ambiguityCount else 0)
  }

  function RunFor(settings: Settings, h: ConversationHistory, req: Request): Point {
    RunOf(Config(settings.limits, req.oracle), InitialState(settings, h, req))
  }

  function Exchange(question: string, answer: Option<string>): seq<Turn> {
    [Turn(User, question), Turn(Assistant, OrElse(answer, ""))]
  }

  function Saved(h: ConversationHistory, question: string, result: State): ConversationHistory {
    ConversationHistory(
      result.status, result.lastClarification, result.intent, result.ambiguityCount,
      h.turns + Exchange(question, result.answer))
  }

  function Responded(result: State): Response {
    Reply(result.answer, result.status, if result.status == Error then 422 else 200)
  }

  /** A run that finishes is saved and answered; any other is an internal error and leaves the history alone. */
  function Serve(settings: Settings, h: ConversationHistory, req: Request): Served {
    var p := RunFor(settings, h, req);
    if p.phase == Finished then Served(Some(Saved(h, req.question, p.st)), Responded(p.st))
    else Served(None, InternalError)
  }

  // ---- What one request does ----

  /** The clarification rounds a request starts with. */
  function CarriedRounds(h: ConversationHistory): nat {
    if Continues(h) then h.ambiguityCount else 0
  }

  lemma ServedRun(settings: Settings, h: ConversationHistory, req: Request) returns (p: Point, e: Ending)
    ensures p == RunFor(settings, h, req) && IsFresh(InitialState(settings, h, req)) && p.trace != []
    ensures AllLinked(Config(settings.limits, req.oracle), InitialState(settings, h, req), p.trace)
    ensures p.phase == Finished ==>
              EndsAs(Config(settings.limits, req.oracle), InitialState(settings, h, req), p, e)
    ensures p.phase != Finished ==> EndsByRaising(Config(settings.limits, req.oracle), p.trace)
  {
    var cfg, st0 := Config(settings.limits, req.oracle), InitialState(settings, h, req);
    RunIsGood(cfg, st0);
    p := RunFor(settings, h, req);
    e := EndingOf(p.trace, cfg.limits.maxRounds, st0.ambiguityCount);
  }

  /** What is saved and answered: one exchange more, a final status, and how the round counter moves. */
  lemma ServedFacts(settings: Settings, h: ConversationHistory, req: Request)
    ensures var served := Serve(settings, h, req);
            match served.saved
            case None => served.response == InternalError
            case Some(h') =>
              && served.response == Reply(
                                      served.response.answer, h'.lastStatus,
                                      if h'.lastStatus == Error then 422 else 200)
              && h'.turns == h.turns + Exchange(req.question, served.response.answer)
              && h'.lastStatus in {Done, AskingClarification, Error}
              && (h'.lastStatus == AskingClarification ==>
                    && h'.ambiguityCount == CarriedRounds(h) + 1 <= settings.limits.maxRounds
                    && served.response.answer == h'.lastClarification)
              && (h'.lastStatus == Done ==> h'.ambiguityCount == 0 && h'.lastClarification == None)
              && (h'.lastStatus == Error ==> h'.ambiguityCount in {0, CarriedRounds(h)})
  {
    var p, e := ServedRun(settings, h, req);
  }

  /** The intent a request is classified with, given that its merger call, if any, replies. */
  function SettledIntent(h: ConversationHistory, req: Request): string {
    if !Continues(h) then req.question
    else match h.lastClarification
      case None => if h.intent.Some? && h.intent.value != "" then h.intent.value else req.question
      case Some(clarification) => Merged(req.oracle, h.intent, clarification, req.question)
  }

  function Merged(oracle: Oracle, intent: Option<string>, clarification: string, answer: string): string {
    match oracle.merge(MergerPrompt(intent, clarification, answer))
    case Text(content) => Strip(content)
    case LlmRaises => ""
  }

  /** The merger call of a request, if it makes one. */
  function MergerCall(h: ConversationHistory, req: Request): Option<MergerPrompt> {
    if Continues(h) && h.lastClarification.Some?
    then Some(MergerPrompt(h.intent, h.lastClarification.value, req.question))
    else None
  }

  /**
   Whatever becomes of the request, the merger is called iff a clarification question is pending, with the stored
   intent, that question and the user's words; what it replies, or else the question, is what is classified.
   */
  lemma MergerIsCalledIff(settings: Settings, h: ConversationHistory, req: Request)
    ensures var trace := RunFor(settings, h, req).trace;
            trace != [] && match trace[0]
                           case MergeFailed(merger) => MergerCall(h, req) == Some(merger)
                           case Analyzed(merge, classifier, _) =>
                             && merge == MergerCall(h, req)
                             && classifier == ClassifierPrompt(SettledIntent(h, req), req.schema)
                           case _ => false
  {
    var p, e := ServedRun(settings, h, req);
    LinkedAt(Config(settings.limits, req.oracle), InitialState(settings, h, req), p.trace, 0);
  }

  /** The intent that was classified is the one saved. */
  lemma ServedIntent(settings: Settings, h: ConversationHistory, req: Request)
    ensures var served := Serve(settings, h, req);
            served.saved.Some? ==> served.saved.value.intent == Some(SettledIntent(h, req))
    ensures Serve(settings, h, req).saved.Some? ==> RunFor(settings, h, req).trace != []
    ensures Serve(settings, h, req).saved.Some? ==> RunFor(settings, h, req).trace[0].Analyzed?
  {
    var p, e := ServedRun(settings, h, req);
    MergerIsCalledIff(settings, h, req);
  }

  // ---- A clarification without a question ----

  /** The merger prompt of a run, if its first execution called the merger. */
  function MergerPromptOf(trace: seq<Event>): Option<MergerPrompt> {
    if trace == [] then None
    else match trace[0]
      case MergeFailed(merger) => Some(merger)
      case Analyzed(merge, _, _) => merge
      case _ => None
  }

  /** In a continuation the user's words reach the merger exactly when the pending question is not null. */
  lemma AnswerReachesMergerIff(settings: Settings, h: ConversationHistory, req: Request)
    requires Continues(h)
    ensures var merge := MergerPromptOf(RunFor(settings, h, req).trace);
            && (merge.Some? <==> h.lastClarification.Some?)
            && (merge.Some? ==> merge.value.answer == req.question)
  {
    MergerIsCalledIff(settings, h, req);
  }

  /** Nothing is pending to merge with, and there is an intent to go on with. */
  predicate IgnoresQuestion(phase: Phase, st: State) {
    && st.intent.Some? && st.intent.value != ""
    && (phase == At(Analyzer) ==> st.lastClarification == None)
  }

  function WithQuestion(p: Point, question: string): Point {
    p.(st := p.st.(question := question))
  }

  lemma NodeIgnoresQuestion(cfg: Config, node: Node, st: State, trace: seq<Event>, question: string)
    requires IgnoresQuestion(At(node), st)
    ensures Execute(cfg, node, st.(question := question), trace) == Execute(cfg, node, st, trace)
    ensures match Execute(cfg, node, st, trace)
            case Raised(_) => true
            case Returned(_, update) => update.intent == Keep || update.intent == Put(st.intent)
  {
  }

  lemma StepIgnoresQuestion(cfg: Config, p: Point, question: string)
    requires p.phase.At? && IgnoresQuestion(p.phase, p.st)
    ensures Step(cfg, WithQuestion(p, question)) == WithQuestion(Step(cfg, p), question)
    ensures IgnoresQuestion(Step(cfg, p).phase, Step(cfg, p).st)
  {
    NodeIgnoresQuestion(cfg, p.phase.node, p.st, p.trace, question);
  }

  lemma {:induction false} RunIgnoresQuestion(cfg: Config, p: Point, question: string)
    requires IgnoresQuestion(p.phase, p.st)
    ensures Run(cfg, WithQuestion(p, question)) == WithQuestion(Run(cfg, p), question)
    decreases RetriesLeft(cfg.limits, p.st), Rank(p.phase)
  {
    if p.phase.At? {
      StepIgnoresQuestion(cfg, p, question);
      StepDescends(cfg, p);
      RunIgnoresQuestion(cfg, Step(cfg, p), question);
    }
  }

  /** After a null clarification question, whatever the user answers makes no difference to the run or the reply. */
  lemma NullClarificationIgnoresAnswer(settings: Settings, h: ConversationHistory, req: Request, question: string)
    requires Continues(h) && h.lastClarification == None && h.intent.Some? && h.intent.value != ""
    ensures var other := req.(question := question);
            && RunFor(settings, h, other).trace == RunFor(settings, h, req).trace
            && Serve(settings, h, other).response == Serve(settings, h, req).response
  {
    var cfg, st0 := Config(settings.limits, req.oracle), InitialState(settings, h, req);
    RunIgnoresQuestion(cfg, Start(st0), question);
    assert WithQuestion(Start(st0), question) == Start(InitialState(settings, h, req.(question := question)));
  }

  /**
   An ambiguous classification below the limit is always saved as a clarification, one round further. The question is
   that of the classifier, null included, and the default only if the key is absent.
   */
  lemma AmbiguousIsAsked(settings: Settings, h: ConversationHistory, req: Request, question: Key, reason: Key)
    requires MergerCall(h, req).Some? ==> req.oracle.merge(MergerCall(h, req).value).Text?
    requires req.oracle.classify(ClassifierPrompt(SettledIntent(h, req), req.schema))
          == Object(Str("ambiguous"), question, reason)
    requires CarriedRounds(h) < settings.limits.maxRounds
    ensures var served := Serve(settings, h, req);
            && served.saved.Some? && Continues(served.saved.value)
            && served.saved.value.ambiguityCount == CarriedRounds(h) + 1
            && served.saved.value.intent == Some(SettledIntent(h, req))
            && served.response == Reply(served.saved.value.lastClarification, AskingClarification, 200)
            && match question
               case Absent => served.response.answer == Some("Could you clarify your question?")
               case Null => served.response.answer == None
               case Str(asked) => served.response.answer == Some(asked)
  {
    var cfg, st0 := Config(settings.limits, req.oracle), InitialState(settings, h, req);
    assert QuestionAnalyzer(cfg, st0) == Classify(cfg, st0, MergerCall(h, req), SettledIntent(h, req));
    var p := Step(cfg, Start(st0));
    assert p.phase == Finished;
    assert Run(cfg, p) == p;
    assert Run(cfg, Start(st0)) == p;
  }

  // ---- Conversations ----

  function After(settings: Settings, h: ConversationHistory, reqs: seq<Request>): ConversationHistory {
    if reqs == [] then h
    else
      var was := After(settings, h, reqs[..|reqs| - 1]);
      var saved := Serve(settings, was, reqs[|reqs| - 1]).saved;
      if saved.Some? then saved.value else was
  }

  function Replies(settings: Settings, h: ConversationHistory, reqs: seq<Request>): seq<Response> {
    if reqs == [] then []
    else
      var earlier := reqs[..|reqs| - 1];
      Replies(settings, h, earlier) + [Serve(settings, After(settings, h, earlier), reqs[|reqs| - 1]).response]
  }

  // ---- The intent is a fold of the merger ----

  /** q0 merged with each clarification and its answer in turn; each merge is the reply of that request's model. */
  function FoldedIntent(reqs: seq<Request>, clarifications: seq<string>): string
    requires |reqs| == |clarifications| + 1
  {
    var n := |clarifications|;
    if n == 0 then reqs[0].question
    else
      Merged(reqs[n].oracle, Some(FoldedIntent(reqs[..n], clarifications[..n - 1])),
             clarifications[n - 1], reqs[n].question)
  }

  /** Requests that were all answered: a fresh question, then answers to clarification questions that are not null. */
  ghost predicate IsClarificationBlock(
    settings: Settings, h: ConversationHistory, reqs: seq<Request>, clarifications: seq<string>)
    decreases |reqs|
  {
    var n := |clarifications|;
    && |reqs| == n + 1
    && var was := After(settings, h, reqs[..n]);
       && Serve(settings, was, reqs[n]).saved.Some?
       && if n == 0 then !Continues(h)
          else
            && Continues(was) && was.lastClarification == Some(clarifications[n - 1])
            && IsClarificationBlock(settings, h, reqs[..n], clarifications[..n - 1])
  }

  /**
   Over a clarification block the merger is given exactly the stored intent, the last clarification and the new
   answer, and the intent saved at the end is the fold of the merger from the first question.
   */
  lemma {:induction false} IntentIsFold(
    settings: Settings, h: ConversationHistory, reqs: seq<Request>, clarifications: seq<string>)
    requires IsClarificationBlock(settings, h, reqs, clarifications)
    ensures After(settings, h, reqs).intent == Some(FoldedIntent(reqs, clarifications))
    ensures var n := |clarifications|;
            var trace := RunFor(settings, After(settings, h, reqs[..n]), reqs[n]).trace;
            && trace != [] && trace[0].Analyzed?
            && trace[0].merge
            == (if n == 0 then None
                else Some(MergerPrompt(Some(FoldedIntent(reqs[..n], clarifications[..n - 1])),
                                       clarifications[n - 1], reqs[n].question)))
    decreases |clarifications|
  {
    var n := |clarifications|;
    if n > 0 {
      IntentIsFold(settings, h, reqs[..n], clarifications[..n - 1]);
    }
    ServedIntent(settings, After(settings, h, reqs[..n]), reqs[n]);
    MergerIsCalledIff(settings, After(settings, h, reqs[..n]), reqs[n]);
  }

  // ---- The counter is the streak of clarifications ----

  function StatusesOf(replies: seq<Response>): seq<Status> {
    if replies == [] then []
    else
      var last := replies[|replies| - 1];
      StatusesOf(replies[..|replies| - 1]) + if last.Reply? then [last.status] else []
  }

  /** How many of the last statuses in a row are clarifications. */
  function Streak(statuses: seq<Status>): nat {
    if statuses == [] || statuses[|statuses| - 1] != AskingClarification then 0
    else Streak(statuses[..|statuses| - 1]) + 1
  }

  ghost predicate StreaksWithin(statuses: seq<Status>, bound: nat) {
    forall n | 0 <= n <= |statuses| :: Streak(statuses[..n]) <= bound
  }

  lemma StreaksWithinAppend(statuses: seq<Status>, status: Status, bound: nat)
    requires StreaksWithin(statuses, bound) && Streak(statuses + [status]) <= bound
    ensures StreaksWithin(statuses + [status], bound)
  {
    var longer := statuses + [status];
    forall n | 0 <= n <= |longer| ensures Streak(longer[..n]) <= bound {
      if n <= |statuses| {
        assert longer[..n] == statuses[..n];
      } else {
        assert longer[..n] == longer;
      }
    }
  }

  lemma {:induction false} StreakCoversRun(statuses: seq<Status>, i: nat)
    requires i <= |statuses| && forall k | i <= k < |statuses| :: statuses[k] == AskingClarification
    ensures Streak(statuses) >= |statuses| - i
    decreases |statuses|
  {
    if i < |statuses| {
      StreakCoversRun(statuses[..|statuses| - 1], i);
    }
  }

  /** The counter agrees with the replies given so far. */
  predicate CounterIsStreak(h: ConversationHistory, statuses: seq<Status>) {
    && (Continues(h) <==> statuses != [] && statuses[|statuses| - 1] == AskingClarification)
    && CarriedRounds(h) == Streak(statuses)
  }

  lemma ServeKeepsStreak(settings: Settings, h: ConversationHistory, req: Request, statuses: seq<Status>)
    requires CounterIsStreak(h, statuses) && StreaksWithin(statuses, Clamp(settings.limits.maxRounds))
    requires Serve(settings, h, req).saved.Some?
    ensures var h' := Serve(settings, h, req).saved.value;
            var longer := statuses + [h'.lastStatus];
            CounterIsStreak(h', longer) && StreaksWithin(longer, Clamp(settings.limits.maxRounds))
  {
    ServedFacts(settings, h, req);
    var h' := Serve(settings, h, req).saved.value;
    assert (statuses + [h'.lastStatus])[..|statuses|] == statuses;
    StreaksWithinAppend(statuses, h'.lastStatus, Clamp(settings.limits.maxRounds));
  }

  lemma {:induction false} CounterCountsStreak(settings: Settings, h: ConversationHistory, reqs: seq<Request>)
    requires !Continues(h)
    ensures var statuses := StatusesOf(Replies(settings, h, reqs));
            && CounterIsStreak(After(settings, h, reqs), statuses)
            && StreaksWithin(statuses, Clamp(settings.limits.maxRounds))
  {
    if reqs != [] {
      var earlier := reqs[..|reqs| - 1];
      CounterCountsStreak(settings, h, earlier);
      var was := After(settings, h, earlier);
      var served := Serve(settings, was, reqs[|reqs| - 1]);
      var replies := Replies(settings, h, earlier);
      assert (replies + [served.response])[..|replies|] == replies;
      ServedFacts(settings, was, reqs[|reqs| - 1]);
      if served.saved.Some? {
        ServeKeepsStreak(settings, was, reqs[|reqs| - 1], StatusesOf(replies));
      } else {
        assert StatusesOf(replies) + [] == StatusesOf(replies);
      }
    }
  }

  /** No more than `max_clarification_rounds` saved replies in a row are clarifications. */
  lemma NoLongerStreak(settings: Settings, h: ConversationHistory, reqs: seq<Request>, i: nat)
    requires !Continues(h)
    requires var statuses := StatusesOf(Replies(settings, h, reqs));
             i + Clamp(settings.limits.maxRounds) + 1 <= |statuses|
    ensures var statuses := StatusesOf(Replies(settings, h, reqs));
            exists k | i <= k <= i + Clamp(settings.limits.maxRounds) :: statuses[k] != AskingClarification
  {
    var statuses := StatusesOf(Replies(settings, h, reqs));
    var j := i + Clamp(settings.limits.maxRounds) + 1;
    CounterCountsStreak(settings, h, reqs);
    if forall k | i <= k < j :: statuses[k] == AskingClarification {
      StreakCoversRun(statuses[..j], i);
      assert false;
    }
  }

  // ---- Turns and the window ----

  /** The exchanges of the requests that were answered. */
  function Transcript(reqs: seq<Request>, replies: seq<Response>): seq<Turn>
    requires |reqs| == |replies|
  {
    if reqs == [] then []
    else
      var n := |reqs| - 1;
      Transcript(reqs[..n], replies[..n])
      + if replies[n].Reply? then Exchange(reqs[n].question, replies[n].answer) else []
  }

  predicate IsPaired(turns: seq<Turn>) {
    && |turns| % 2 == 0
    && forall k | 0 <= k < |turns| :: turns[k].role == if k % 2 == 0 then User else Assistant
  }

  lemma {:induction false} TurnsAreTranscript(settings: Settings, h: ConversationHistory, reqs: seq<Request>)
    ensures |Replies(settings, h, reqs)| == |reqs|
    ensures After(settings, h, reqs).turns == h.turns + Transcript(reqs, Replies(settings, h, reqs))
  {
    if reqs != [] {
      var n := |reqs| - 1;
      TurnsAreTranscript(settings, h, reqs[..n]);
      var was := After(settings, h, reqs[..n]);
      ServedFacts(settings, was, reqs[n]);
      var replies := Replies(settings, h, reqs);
      assert replies[..n] == Replies(settings, h, reqs[..n]);
    }
  }

  lemma {:induction false} TranscriptIsPaired(reqs: seq<Request>, replies: seq<Response>)
    requires |reqs| == |replies|
    ensures IsPaired(Transcript(reqs, replies))
  {
    if reqs != [] {
      TranscriptIsPaired(reqs[..|reqs| - 1], replies[..|reqs| - 1]);
    }
  }

  lemma SuffixIsPaired(turns: seq<Turn>, start: nat)
    requires IsPaired(turns) && start <= |turns| && start % 2 == 0
    ensures IsPaired(turns[start..])
  {
    forall k | 0 <= k < |turns| - start ensures turns[start..][k].role == if k % 2 == 0 then User else Assistant {
      assert turns[start..][k] == turns[start + k];
    }
  }

  /** How many whole exchanges a window keeps of a log: 0 keeps all, and a negative one drops that many. */
  function KeptExchanges(pairs: nat, window: int): nat {
    if window > 0 then (if pairs < window then pairs else window)
    else if window == 0 then pairs
    else Clamp(pairs + window)
  }

  /** A window of w >= 1 is the last w exchanges or all of them; a window of 0 is the whole log. */
  lemma WindowIsLastExchanges(turns: seq<Turn>, window: int)
    requires IsPaired(turns)
    ensures Windowed(turns, window) == turns[|turns| - 2 * KeptExchanges(|turns| / 2, window)..]
    ensures IsPaired(Windowed(turns, window))
  {
    SuffixIsPaired(turns, |turns| - 2 * KeptExchanges(|turns| / 2, window));
  }

  /** A log of n exchanges. */
  function Exchanges(n: nat): (turns: seq<Turn>)
    ensures |turns| == 2 * n && IsPaired(turns)
  {
    seq(2 * n, i => Turn(if i % 2 == 0 then User else Assistant, ""))
  }

  /** On logs of whole exchanges, the history stays within the configured number iff that number is positive. */
  lemma WindowCapsHistoryIff(window: int)
    ensures (forall turns | IsPaired(turns) :: |Windowed(turns, window)| <= 2 * Clamp(window)) <==> window >= 1
  {
    if window <= 0 {
      assert |Windowed(Exchanges(1 - window), window)| == 2;
    }
  }

  // ---- Fields that are not carried ----

  /** Equal but for the clarification fields of a history that does not continue. */
  predicate SameButStale(h: ConversationHistory, h': ConversationHistory) {
    && h.lastStatus == h'.lastStatus
    && h.turns == h'.turns
    && (Continues(h) ==> h == h')
  }

  lemma StaleFieldsAreDead(settings: Settings, h: ConversationHistory, h': ConversationHistory, req: Request)
    requires SameButStale(h, h')
    ensures Serve(settings, h, req) == Serve(settings, h', req)
  {
    assert InitialState(settings, h, req) == InitialState(settings, h', req);
  }
}
