/** What holds of the stored histories however requests are interleaved, and what more holds when they are not. */
module Histories {
  import opened Wrappers
  import opened AgentState
  import opened Prompts
  import opened Nodes
  import opened GraphRuns
  import opened RunTheorems
  import opened Sessions
  import opened Conversation
  import opened Interleaving
  import opened LostUpdates

  // ---- The clarification bound, under every interleaving ----

  ghost predicate RoundsWithin(sys: System, bound: nat) {
    && (forall s | s in sys.store :: sys.store[s].ambiguityCount <= bound)
    && (forall id | id in sys.pending :: sys.pending[id].snapshot.ambiguityCount <= bound)
  }

  lemma NextKeepsRounds(settings: Settings, sys: System, event: Transition)
    requires RoundsWithin(sys, Clamp(settings.limits.maxRounds))
    ensures RoundsWithin(Next(settings, sys, event), Clamp(settings.limits.maxRounds))
  {
    if event.End? && event.id in sys.pending {
      ServedFacts(settings, sys.pending[event.id].snapshot, sys.pending[event.id].request);
    }
  }

  /** No interleaving, overlapping requests of one session included, stores more rounds than the limit. */
  lemma {:induction false} RoundsStayWithin(settings: Settings, sys: System, events: seq<Transition>)
    requires RoundsWithin(sys, Clamp(settings.limits.maxRounds))
    ensures RoundsWithin(Exec(settings, sys, events), Clamp(settings.limits.maxRounds))
    decreases |events|
  {
    if events != [] {
      NextKeepsRounds(settings, sys, events[0]);
      RoundsStayWithin(settings, Next(settings, sys, events[0]), events[1..]);
    }
  }

  // ---- Where a history comes from, under every interleaving ----

  predicate ArePicks(log: seq<Entry>, session: string, picks: seq<nat>) {
    && (forall k | 0 <= k < |picks| ::
          picks[k] < |log| && log[picks[k]].id.session == session && log[picks[k]].response.Reply?)
    && (forall k, l | 0 <= k < l < |picks| :: picks[k] < picks[l])
  }

  function PickedRequests(log: seq<Entry>, picks: seq<nat>): (reqs: seq<Request>)
    requires forall k | 0 <= k < |picks| :: picks[k] < |log|
    ensures |reqs| == |picks|
  {
    seq(|picks|, k requires 0 <= k < |picks| => log[picks[k]].request)
  }

  function PickedResponses(log: seq<Entry>, picks: seq<nat>): (responses: seq<Response>)
    requires forall k | 0 <= k < |picks| :: picks[k] < |log|
    ensures |responses| == |picks|
  {
    seq(|picks|, k requires 0 <= k < |picks| => log[picks[k]].response)
  }

  /** The history is that of a serial conversation of the picked requests, answered as they would be in it. */
  ghost predicate IsConversationOf(
    settings: Settings, log: seq<Entry>, session: string, h: ConversationHistory, picks: seq<nat>)
  {
    && ArePicks(log, session, picks)
    && After(settings, BLANK, PickedRequests(log, picks)) == h
    && Replies(settings, BLANK, PickedRequests(log, picks)) == PickedResponses(log, picks)
  }

  ghost predicate IsExplained(settings: Settings, log: seq<Entry>, session: string, h: ConversationHistory) {
    exists picks: seq<nat> :: IsConversationOf(settings, log, session, h, picks)
  }

  lemma BlankIsExplained(settings: Settings, log: seq<Entry>, session: string)
    ensures IsExplained(settings, log, session, BLANK)
  {
    assert PickedRequests(log, []) == [] && PickedResponses(log, []) == [];
    assert IsConversationOf(settings, log, session, BLANK, []);
  }

  lemma ExplainedStays(settings: Settings, log: seq<Entry>, e: Entry, session: string, h: ConversationHistory)
    requires IsExplained(settings, log, session, h)
    ensures IsExplained(settings, log + [e], session, h)
  {
    var picks: seq<nat> :| IsConversationOf(settings, log, session, h, picks);
    assert PickedRequests(log + [e], picks) == PickedRequests(log, picks);
    assert PickedResponses(log + [e], picks) == PickedResponses(log, picks);
    assert IsConversationOf(settings, log + [e], session, h, picks);
  }

  lemma PicksExtend(log: seq<Entry>, e: Entry, picks: seq<nat>)
    requires ArePicks(log, e.id.session, picks) && e.response.Reply?
    ensures var longer, more := log + [e], picks + [|log|];
            && ArePicks(longer, e.id.session, more)
            && PickedRequests(longer, more) == PickedRequests(log, picks) + [e.request]
            && PickedResponses(longer, more) == PickedResponses(log, picks) + [e.response]
  {
  }

  lemma AfterOneMore(settings: Settings, h: ConversationHistory, reqs: seq<Request>, req: Request)
    ensures var was := After(settings, h, reqs);
            var served := Serve(settings, was, req);
            && After(settings, h, reqs + [req]) == (if served.saved.Some? then served.saved.value else was)
            && Replies(settings, h, reqs + [req]) == Replies(settings, h, reqs) + [served.response]
  {
    assert (reqs + [req])[..|reqs|] == reqs;
  }

  lemma ExplainedExtends(settings: Settings, log: seq<Entry>, e: Entry, h: ConversationHistory)
    requires IsExplained(settings, log, e.id.session, h)
    requires Serve(settings, h, e.request).saved.Some? && e.response == Serve(settings, h, e.request).response
    ensures IsExplained(settings, log + [e], e.id.session, Serve(settings, h, e.request).saved.value)
  {
    var picks: seq<nat> :| IsConversationOf(settings, log, e.id.session, h, picks);
    var more := picks + [|log|];
    ServedFacts(settings, h, e.request);
    PicksExtend(log, e, picks);
    AfterOneMore(settings, BLANK, PickedRequests(log, picks), e.request);
    assert IsConversationOf(settings, log + [e], e.id.session, Serve(settings, h, e.request).saved.value, more);
  }

  ghost predicate AllExplained(settings: Settings, sys: System) {
    && (forall s :: IsExplained(settings, sys.log, s, Lookup(sys.store, s)))
    && (forall id | id in sys.pending :: IsExplained(settings, sys.log, id.session, sys.pending[id].snapshot))
  }

  lemma NextKeepsExplained(settings: Settings, sys: System, event: Transition)
    requires AllExplained(settings, sys)
    ensures AllExplained(settings, Next(settings, sys, event))
  {
    if event.End? && event.id in sys.pending {
      var p := sys.pending[event.id];
      var served := Serve(settings, p.snapshot, p.request);
      var e := Entry(event.id, p.request, served.response);
      var sys' := Next(settings, sys, event);
      forall s ensures IsExplained(settings, sys'.log, s, Lookup(sys'.store, s)) {
        if s == event.id.session && served.saved.Some? {
          ExplainedExtends(settings, sys.log, e, p.snapshot);
        } else {
          ExplainedStays(settings, sys.log, e, s, Lookup(sys.store, s));
        }
      }
      forall id | id in sys'.pending
        ensures IsExplained(settings, sys'.log, id.session, sys'.pending[id].snapshot)
      {
        ExplainedStays(settings, sys.log, e, id.session, sys.pending[id].snapshot);
      }
    }
  }

  lemma {:induction false} ExecKeepsExplained(settings: Settings, sys: System, events: seq<Transition>)
    requires AllExplained(settings, sys)
    ensures AllExplained(settings, Exec(settings, sys, events))
    decreases |events|
  {
    if events != [] {
      NextKeepsExplained(settings, sys, events[0]);
      ExecKeepsExplained(settings, Next(settings, sys, events[0]), events[1..]);
    }
  }

  /**
   Under every interleaving, a stored history and a snapshot in flight are those of a serial conversation of some of
   the session's committed requests, in commit order; every one of these was answered as in that conversation.
   */
  lemma HistoriesAreConversations(settings: Settings, events: seq<Transition>)
    ensures AllExplained(settings, Exec(settings, Initial(map[]), events))
  {
    forall s ensures IsExplained(settings, [], s, BLANK) {
      BlankIsExplained(settings, [], s);
    }
    ExecKeepsExplained(settings, Initial(map[]), events);
  }

  /** The turns are the exchanges of some of the session's committed requests, in commit order, and no others. */
  ghost predicate AreOwnExchanges(log: seq<Entry>, session: string, turns: seq<Turn>) {
    exists picks: seq<nat> ::
      && ArePicks(log, session, picks)
      && turns == Transcript(PickedRequests(log, picks), PickedResponses(log, picks))
  }

  lemma ExplainedTurns(settings: Settings, log: seq<Entry>, session: string, h: ConversationHistory)
    requires IsExplained(settings, log, session, h)
    ensures AreOwnExchanges(log, session, h.turns)
  {
    var picks: seq<nat> :| IsConversationOf(settings, log, session, h, picks);
    TurnsAreTranscript(settings, BLANK, PickedRequests(log, picks));
  }

  /** Under every interleaving the log of a session starts empty and holds exchanges of its own requests only. */
  lemma TurnsAreOwnExchanges(settings: Settings, events: seq<Transition>)
    ensures var sys := Exec(settings, Initial(map[]), events);
            && (forall session :: AreOwnExchanges(sys.log, session, Lookup(sys.store, session).turns))
            && (forall id | id in sys.pending ::
                  AreOwnExchanges(sys.log, id.session, sys.pending[id].snapshot.turns))
  {
    var sys := Exec(settings, Initial(map[]), events);
    HistoriesAreConversations(settings, events);
    forall session ensures AreOwnExchanges(sys.log, session, Lookup(sys.store, session).turns) {
      ExplainedTurns(settings, sys.log, session, Lookup(sys.store, session));
    }
    forall id | id in sys.pending ensures AreOwnExchanges(sys.log, id.session, sys.pending[id].snapshot.turns) {
      ExplainedTurns(settings, sys.log, id.session, sys.pending[id].snapshot);
    }
  }

  predicate HasCommitted(log: seq<Entry>, session: string) {
    exists i | 0 <= i < |log| :: log[i].id.session == session && log[i].response.Reply?
  }

  lemma PicksAreCommitted(log: seq<Entry>, session: string, picks: seq<nat>)
    requires ArePicks(log, session, picks)
    ensures picks != [] ==> HasCommitted(log, session)
  {
    if picks != [] {
      assert log[picks[0]].id.session == session && log[picks[0]].response.Reply?;
    }
  }

  lemma NothingCommittedIsBlank(settings: Settings, log: seq<Entry>, session: string, h: ConversationHistory)
    requires IsExplained(settings, log, session, h) && !HasCommitted(log, session)
    ensures h == BLANK
  {
    var picks: seq<nat> :| IsConversationOf(settings, log, session, h, picks);
    PicksAreCommitted(log, session, picks);
    assert PickedRequests(log, picks) == [];
  }

  /** Of an empty log no prompt says anything. */
  lemma NoHistoryNoContext(settings: Settings, h: ConversationHistory, req: Request)
    requires InitialState(settings, h, req).history == []
    ensures var trace := RunFor(settings, h, req).trace;
            forall i | 0 <= i < |trace| && trace[i].Generated? ::
              forall k | 0 <= k < |trace[i].prompt.parts| :: !trace[i].prompt.parts[k].Context?
  {
    var cfg, st0 := Config(settings.limits, req.oracle), InitialState(settings, h, req);
    var p, e := ServedRun(settings, h, req);
    forall i | 0 <= i < |p.trace| && p.trace[i].Generated? ensures !HasContext(p.trace[i].prompt.parts) {
      LinkedAt(cfg, st0, p.trace, i);
    }
  }

  /**
   A request that begins while no request of its session has committed starts from nothing: no history, no intent, no
   clarification, no rounds; and none of its prompts has a context.
   */
  lemma FirstRequestStartsFromNothing(settings: Settings, events: seq<Transition>, id: Id, req: Request)
    requires var sys := Exec(settings, Initial(map[]), events);
             id !in sys.pending && !HasCommitted(sys.log, id.session)
    ensures var sys := Next(settings, Exec(settings, Initial(map[]), events), Begin(id, req));
            var st0 := InitialState(settings, sys.pending[id].snapshot, req);
            var trace := RunFor(settings, sys.pending[id].snapshot, req).trace;
            && sys.pending[id].snapshot.turns == []
            && st0.history == [] && st0.intent == None && st0.lastClarification == None && st0.ambiguityCount == 0
            && forall i | 0 <= i < |trace| && trace[i].Generated? ::
                 forall k | 0 <= k < |trace[i].prompt.parts| :: !trace[i].prompt.parts[k].Context?
  {
    var sys := Exec(settings, Initial(map[]), events);
    HistoriesAreConversations(settings, events);
    var h := Lookup(sys.store, id.session);
    assert IsExplained(settings, sys.log, id.session, h);
    NothingCommittedIsBlank(settings, sys.log, id.session, h);
    NoHistoryNoContext(settings, h, req);
  }

  /** In every reachable store the turns of a session are whole exchanges, question then answer. */
  lemma StoredTurnsArePaired(settings: Settings, events: seq<Transition>, session: string)
    ensures IsPaired(Lookup(Exec(settings, Initial(map[]), events).store, session).turns)
  {
    var sys := Exec(settings, Initial(map[]), events);
    HistoriesAreConversations(settings, events);
    var h := Lookup(sys.store, session);
    assert IsExplained(settings, sys.log, session, h);
    var picks: seq<nat> :| IsConversationOf(settings, sys.log, session, h, picks);
    var reqs := PickedRequests(sys.log, picks);
    TurnsAreTranscript(settings, BLANK, reqs);
    TranscriptIsPaired(reqs, Replies(settings, BLANK, reqs));
  }

  /** A request beginning at any time is given the last w exchanges of its session, or all of them for w = 0. */
  lemma GivenHistoryIsLastExchanges(
    settings: Settings, events: seq<Transition>, session: string, request: Request)
    ensures var h := Lookup(Exec(settings, Initial(map[]), events).store, session);
            && IsPaired(h.turns)
            && InitialState(settings, h, request).history
            == h.turns[|h.turns| - 2 * KeptExchanges(|h.turns| / 2, settings.window)..]
            && IsPaired(InitialState(settings, h, request).history)
  {
    StoredTurnsArePaired(settings, events, session);
    WindowIsLastExchanges(Lookup(Exec(settings, Initial(map[]), events).store, session).turns, settings.window);
  }

  // ---- Sessions whose requests do not overlap ----

  function RequestsIn(log: seq<Entry>): (reqs: seq<Request>)
    ensures |reqs| == |log|
  {
    seq(|log|, i requires 0 <= i < |log| => log[i].request)
  }

  function ResponsesIn(log: seq<Entry>): (responses: seq<Response>)
    ensures |responses| == |log|
  {
    seq(|log|, i requires 0 <= i < |log| => log[i].response)
  }

  /** The session's entry and replies are those of all its requests served one after another. */
  ghost predicate IsOneConversation(settings: Settings, store: Entries, log: seq<Entry>, session: string) {
    var own := LogOf(log, session);
    && Lookup(store, session) == After(settings, BLANK, RequestsIn(own))
    && ResponsesIn(own) == Replies(settings, BLANK, RequestsIn(own))
  }

  lemma OwnEntryContinues(settings: Settings, store: Entries, log: seq<Entry>, e: Entry)
    requires IsOneConversation(settings, store, log, e.id.session)
    requires e.response == Serve(settings, Lookup(store, e.id.session), e.request).response
    ensures var served := Serve(settings, Lookup(store, e.id.session), e.request);
            IsOneConversation(settings, Commit(store, e.id.session, served.saved), log + [e], e.id.session)
  {
    var own := LogOf(log, e.id.session);
    LogOfAppend(log, e, e.id.session);
    assert RequestsIn(own + [e]) == RequestsIn(own) + [e.request];
    assert ResponsesIn(own + [e]) == ResponsesIn(own) + [e.response];
    AfterOneMore(settings, BLANK, RequestsIn(own), e.request);
  }

  lemma OtherEntryKeeps(
    settings: Settings, store: Entries, log: seq<Entry>, e: Entry, saved: Option<ConversationHistory>, session: string)
    requires IsOneConversation(settings, store, log, session) && e.id.session != session
    ensures IsOneConversation(settings, Commit(store, e.id.session, saved), log + [e], session)
  {
    LogOfAppend(log, e, session);
    assert LogOf(log, session) + [] == LogOf(log, session);
  }

  lemma {:induction false} SerialIsPerSession(settings: Settings, log: seq<Entry>, session: string)
    requires Serial(settings, map[], CallsOf(log)).log == log
    ensures IsOneConversation(settings, Serial(settings, map[], CallsOf(log)).store, log, session)
  {
    if log == [] {
      assert RequestsIn([]) == [] && ResponsesIn([]) == [];
    } else {
      var was, e := log[..|log| - 1], log[|log| - 1];
      assert log == was + [e];
      SerialLogPrefix(settings, map[], was, e);
      SerialIsPerSession(settings, was, session);
      SerialAppend(settings, map[], was, e);
      var store := Serial(settings, map[], CallsOf(was)).store;
      if e.id.session == session {
        OwnEntryContinues(settings, store, was, e);
      } else {
        OtherEntryKeeps(
          settings, store, was, e, Serve(settings, Lookup(store, e.id.session), e.request).saved, session);
      }
    }
  }

  /**
   If no two requests of a session overlap, each session is one conversation. Whenever its last saved status is a
   clarification, the stored counter is the number of clarifications in a row at the end of its saved replies, and
   nowhere in these replies is a row of them longer than the limit.
   */
  lemma SerialSessionsCountTheirStreak(settings: Settings, events: seq<Transition>, session: string)
    requires NonOverlapping(settings, Initial(map[]), events)
    ensures var sys := Exec(settings, Initial(map[]), events);
            var statuses := StatusesOf(ResponsesIn(LogOf(sys.log, session)));
            && IsOneConversation(settings, sys.store, sys.log, session)
            && CounterIsStreak(Lookup(sys.store, session), statuses)
            && StreaksWithin(statuses, Clamp(settings.limits.maxRounds))
  {
    var sys := Exec(settings, Initial(map[]), events);
    Serializable(settings, map[], events);
    SerialIsPerSession(settings, sys.log, session);
    CounterCountsStreak(settings, BLANK, RequestsIn(LogOf(sys.log, session)));
  }

  // ---- Sessions whose commits are current ----

  lemma StatusesAppend(log: seq<Entry>, e: Entry, session: string)
    ensures StatusesOf(ResponsesIn(LogOf(log + [e], session)))
         == StatusesOf(ResponsesIn(LogOf(log, session)))
            + if e.id.session == session && e.response.Reply? then [e.response.status] else []
  {
    var own := LogOf(log, session);
    LogOfAppend(log, e, session);
    assert ResponsesIn(own + [e]) == ResponsesIn(own) + [e.response];
    assert ResponsesIn(own + [e])[..|own|] == ResponsesIn(own);
    assert own + [] == own;
  }

  /** Failed requests have no status. */
  lemma {:induction false} CommittedStatuses(log: seq<Entry>, session: string)
    ensures StatusesOf(ResponsesIn(LogOf(CommittedOf(log), session))) == StatusesOf(ResponsesIn(LogOf(log, session)))
  {
    if log != [] {
      var was, e := log[..|log| - 1], log[|log| - 1];
      assert log == was + [e];
      CommittedStatuses(was, session);
      CommitAppend(was, e, session);
      assert CommittedOf(was) + [] == CommittedOf(was);
      StatusesAppend(was, e, session);
      StatusesAppend(CommittedOf(was), e, session);
    }
  }

  /**
   If no request commits over another one's commit, each session is one conversation of its committed requests, and
   its saved replies count and bound their clarifications, whatever failed requests overlap.
   */
  lemma CurrentSessionsCountTheirStreak(settings: Settings, events: seq<Transition>, session: string)
    requires CommitsAreCurrent(settings, Initial(map[]), map[], events)
    ensures var sys := Exec(settings, Initial(map[]), events);
            var statuses := StatusesOf(ResponsesIn(LogOf(sys.log, session)));
            && IsOneConversation(settings, sys.store, CommittedOf(sys.log), session)
            && CounterIsStreak(Lookup(sys.store, session), statuses)
            && StreaksWithin(statuses, Clamp(settings.limits.maxRounds))
  {
    var sys := Exec(settings, Initial(map[]), events);
    SerializableIffCommitsAreCurrent(settings, map[], events);
    SerialIsPerSession(settings, CommittedOf(sys.log), session);
    CounterCountsStreak(settings, BLANK, RequestsIn(LogOf(CommittedOf(sys.log), session)));
    CommittedStatuses(sys.log, session);
  }

  lemma {:induction false} AfterSplit(settings: Settings, h: ConversationHistory, reqs: seq<Request>, n: nat)
    requires n <= |reqs|
    ensures After(settings, h, reqs) == After(settings, After(settings, h, reqs[..n]), reqs[n..])
    decreases |reqs|
  {
    if n == |reqs| {
      assert reqs[..n] == reqs && reqs[n..] == [];
    } else {
      var init := reqs[..|reqs| - 1];
      var rest := reqs[n..];
      AfterSplit(settings, h, init, n);
      assert init[..n] == reqs[..n] && init[n..] == rest[..|rest| - 1];
      assert rest != [] && rest[|rest| - 1] == reqs[|reqs| - 1];
    }
  }

  /**
   The stored intent, under every interleaving in which commits are current: if the last committed requests of a
   session are a question and the answers to its clarifications, it is the fold of the merger over them. Requests of
   the session that failed in between make no difference.
   */
  lemma StoredIntentIsFold(
    settings: Settings, events: seq<Transition>, session: string, start: nat, clarifications: seq<string>)
    requires CommitsAreCurrent(settings, Initial(map[]), map[], events)
    requires var reqs := RequestsIn(LogOf(CommittedOf(Exec(settings, Initial(map[]), events).log), session));
             && start <= |reqs|
             && IsClarificationBlock(settings, After(settings, BLANK, reqs[..start]), reqs[start..], clarifications)
    ensures var sys := Exec(settings, Initial(map[]), events);
            var reqs := RequestsIn(LogOf(CommittedOf(sys.log), session));
            Lookup(sys.store, session).intent == Some(FoldedIntent(reqs[start..], clarifications))
  {
    var reqs := RequestsIn(LogOf(CommittedOf(Exec(settings, Initial(map[]), events).log), session));
    CurrentSessionsCountTheirStreak(settings, events, session);
    AfterSplit(settings, BLANK, reqs, start);
    IntentIsFold(settings, After(settings, BLANK, reqs[..start]), reqs[start..], clarifications);
  }

  // ---- Fields that are not carried are dead ----

  ghost predicate SameButStaleSystems(sys: System, sys': System) {
    && sys.log == sys'.log
    && (forall s :: SameButStale(Lookup(sys.store, s), Lookup(sys'.store, s)))
    && (forall id :: id in sys.pending <==> id in sys'.pending)
    && (forall id | id in sys.pending ::
          && sys.pending[id].request == sys'.pending[id].request
          && SameButStale(sys.pending[id].snapshot, sys'.pending[id].snapshot))
  }

  lemma NextKeepsSameButStale(settings: Settings, sys: System, sys': System, event: Transition)
    requires SameButStaleSystems(sys, sys')
    ensures SameButStaleSystems(Next(settings, sys, event), Next(settings, sys', event))
  {
    if event.End? && event.id in sys.pending {
      var p, p' := sys.pending[event.id], sys'.pending[event.id];
      StaleFieldsAreDead(settings, p.snapshot, p'.snapshot, p.request);
      var saved := Serve(settings, p.snapshot, p.request).saved;
      forall s
        ensures SameButStale(Lookup(Commit(sys.store, event.id.session, saved), s),
                             Lookup(Commit(sys'.store, event.id.session, saved), s))
      {
        assert SameButStale(Lookup(sys.store, s), Lookup(sys'.store, s));
      }
    }
  }

  /** Histories that differ only in stale clarification fields are told apart by no sequence of requests. */
  lemma {:induction false} StaleFieldsAreUnobservable(
    settings: Settings, sys: System, sys': System, events: seq<Transition>)
    requires SameButStaleSystems(sys, sys')
    ensures SameButStaleSystems(Exec(settings, sys, events), Exec(settings, sys', events))
    ensures Exec(settings, sys, events).log == Exec(settings, sys', events).log
    decreases |events|
  {
    if events != [] {
      NextKeepsSameButStale(settings, sys, sys', events[0]);
      StaleFieldsAreUnobservable(
        settings, Next(settings, sys, events[0]), Next(settings, sys', events[0]), events[1..]);
    }
  }

  function Cleared(h: ConversationHistory): ConversationHistory {
    if Continues(h) then h else h.(intent := None, lastClarification := None, ambiguityCount := 0)
  }

  /** Clearing the clarification fields wherever no clarification is pending changes no reply. */
  lemma ClearingStaleFieldsIsUnobservable(settings: Settings, store: Entries, events: seq<Transition>)
    ensures var cleared := map s | s in store :: Cleared(store[s]);
            Exec(settings, Initial(store), events).log == Exec(settings, Initial(cleared), events).log
  {
    var cleared := map s | s in store :: Cleared(store[s]);
    StaleFieldsAreUnobservable(settings, Initial(store), Initial(cleared), events);
  }
}
