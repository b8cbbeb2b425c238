/** The limit on clarifications in a row under every interleaving: overlapping requests outrun any limit but zero. */
module StreakLimit {
  import opened AgentState
  import opened Prompts
  import opened Nodes
  import opened GraphRuns
  import opened Sessions
  import opened Conversation
  import opened Interleaving
  import opened Histories

  /** The statuses a session saves in an execution, in commit order. */
  function SavedStatuses(settings: Settings, events: seq<Transition>, session: string): seq<Status> {
    StatusesOf(ResponsesIn(LogOf(Exec(settings, Initial(map[]), events).log, session)))
  }

  lemma {:induction false} ExecAppend(settings: Settings, sys: System, events: seq<Transition>, event: Transition)
    ensures Exec(settings, sys, events + [event]) == Next(settings, Exec(settings, sys, events), event)
    decreases |events|
  {
    if events == [] {
      assert [event][1..] == [];
      assert Exec(settings, Next(settings, sys, event), []) == Next(settings, sys, event);
    } else {
      assert (events + [event])[1..] == events[1..] + [event];
      ExecAppend(settings, Next(settings, sys, events[0]), events[1..], event);
    }
  }

  // ---- n requests that all begin before the first one ends ----

  function Begins(session: string, req: Request, n: nat): (events: seq<Transition>)
    ensures |events| == n
  {
    seq(n, k requires 0 <= k < n => Begin(Id(session, k), req))
  }

  function Ends(session: string, n: nat): (events: seq<Transition>)
    ensures |events| == n
  {
    seq(n, k requires 0 <= k < n => Transition.End(Id(session, k)))
  }

  /** The requests from the m-th to the n-th are in flight, all with a blank snapshot. */
  ghost predicate InFlight(sys: System, session: string, req: Request, m: nat, n: nat) {
    && (forall k: nat | m <= k < n ::
          Id(session, k) in sys.pending && sys.pending[Id(session, k)] == Pending(req, BLANK))
    && (forall k: nat | n <= k :: Id(session, k) !in sys.pending)
  }

  lemma {:induction false} AfterBegins(settings: Settings, session: string, req: Request, n: nat)
    ensures var sys := Exec(settings, Initial(map[]), Begins(session, req, n));
            InFlight(sys, session, req, 0, n) && sys.store == map[] && sys.log == []
  {
    if n == 0 {
      assert Exec(settings, Initial(map[]), []) == Initial(map[]);
    } else {
      AfterBegins(settings, session, req, n - 1);
      assert Begins(session, req, n) == Begins(session, req, n - 1) + [Begin(Id(session, n - 1), req)];
      ExecAppend(settings, Initial(map[]), Begins(session, req, n - 1), Begin(Id(session, n - 1), req));
    }
  }

  /** The classifier calls the question ambiguous and would ask for more. */
  predicate IsAmbiguous(req: Request, question: Key, reason: Key) {
    req.oracle.classify(ClassifierPrompt(req.question, req.schema)) == Object(Str("ambiguous"), question, reason)
  }

  lemma NextEndAsks(
    settings: Settings, sys: System, session: string, req: Request, question: Key, reason: Key, m: nat, n: nat)
    requires settings.limits.maxRounds >= 1 && IsAmbiguous(req, question, reason)
    requires m < n && InFlight(sys, session, req, m, n)
    ensures var sys' := Next(settings, sys, Transition.End(Id(session, m)));
            && InFlight(sys', session, req, m + 1, n)
            && StatusesOf(ResponsesIn(LogOf(sys'.log, session)))
            == StatusesOf(ResponsesIn(LogOf(sys.log, session))) + [AskingClarification]
  {
    AmbiguousIsAsked(settings, BLANK, req, question, reason);
    StatusesAppend(sys.log, Entry(Id(session, m), req, Serve(settings, BLANK, req).response), session);
  }

  lemma {:induction false} AfterEnds(
    settings: Settings, session: string, req: Request, question: Key, reason: Key, n: nat, m: nat)
    requires settings.limits.maxRounds >= 1 && IsAmbiguous(req, question, reason) && m <= n
    ensures var events := Begins(session, req, n) + Ends(session, m);
            && InFlight(Exec(settings, Initial(map[]), events), session, req, m, n)
            && SavedStatuses(settings, events, session) == seq(m, _ => AskingClarification)
    decreases m
  {
    var events := Begins(session, req, n) + Ends(session, m);
    if m == 0 {
      AfterBegins(settings, session, req, n);
      assert events == Begins(session, req, n);
      assert ResponsesIn([]) == [];
    } else {
      AfterEnds(settings, session, req, question, reason, n, m - 1);
      var earlier, id := Begins(session, req, n) + Ends(session, m - 1), Id(session, m - 1);
      assert events == earlier + [Transition.End(id)];
      ExecAppend(settings, Initial(map[]), earlier, Transition.End(id));
      NextEndAsks(settings, Exec(settings, Initial(map[]), earlier), session, req, question, reason, m - 1, n);
    }
  }

  /** Below a positive limit, n ambiguous requests that overlap are all asked for clarification, whatever n is. */
  lemma OverlapOutrunsLimit(
    settings: Settings, session: string, req: Request, question: Key, reason: Key, n: nat)
    requires settings.limits.maxRounds >= 1 && IsAmbiguous(req, question, reason)
    ensures var statuses := SavedStatuses(settings, Begins(session, req, n) + Ends(session, n), session);
            && Streak(statuses) == |statuses| == n
            && (n > settings.limits.maxRounds ==> !StreaksWithin(statuses, settings.limits.maxRounds))
  {
    AfterEnds(settings, session, req, question, reason, n, n);
    var statuses := SavedStatuses(settings, Begins(session, req, n) + Ends(session, n), session);
    StreakCoversRun(statuses, 0);
    StreakIsBounded(statuses);
    assert statuses[..|statuses|] == statuses;
  }

  lemma {:induction false} StreakIsBounded(statuses: seq<Status>)
    ensures Streak(statuses) <= |statuses|
  {
    if statuses != [] {
      StreakIsBounded(statuses[..|statuses| - 1]);
    }
  }

  // ---- A limit of zero holds under every interleaving ----

  predicate NeverAsks(log: seq<Entry>) {
    forall i | 0 <= i < |log| :: log[i].response.Reply? ==> log[i].response.status != AskingClarification
  }

  lemma {:induction false} ExecNeverAsks(settings: Settings, sys: System, events: seq<Transition>)
    requires settings.limits.maxRounds <= 0 && NeverAsks(sys.log)
    ensures NeverAsks(Exec(settings, sys, events).log)
    decreases |events|
  {
    if events != [] {
      var event := events[0];
      if event.End? && event.id in sys.pending {
        ServedFacts(settings, sys.pending[event.id].snapshot, sys.pending[event.id].request);
      }
      ExecNeverAsks(settings, Next(settings, sys, event), events[1..]);
    }
  }

  lemma {:induction false} NoStreakIn(log: seq<Entry>, session: string)
    requires NeverAsks(log)
    ensures AskingClarification !in StatusesOf(ResponsesIn(LogOf(log, session)))
  {
    if log == [] {
      assert ResponsesIn([]) == [];
    } else {
      var was, e := log[..|log| - 1], log[|log| - 1];
      assert log == was + [e];
      NoStreakIn(was, session);
      StatusesAppend(was, e, session);
    }
  }

  /** Every execution keeps every session's clarifications in a row within the limit iff the limit allows none. */
  lemma LimitHoldsIffZero(settings: Settings)
    ensures (forall events: seq<Transition>, session: string ::
               StreaksWithin(SavedStatuses(settings, events, session), Clamp(settings.limits.maxRounds)))
       <==> settings.limits.maxRounds <= 0
  {
    if settings.limits.maxRounds <= 0 {
      forall events: seq<Transition>, session: string
        ensures StreaksWithin(SavedStatuses(settings, events, session), Clamp(settings.limits.maxRounds))
      {
        ExecNeverAsks(settings, Initial(map[]), events);
        NoStreakIn(Exec(settings, Initial(map[]), events).log, session);
      }
    } else {
      var oracle := Oracle(_ => LlmRaises, _ => Object(Str("ambiguous"), Null, Null), (_, _) => LlmRaises,
                           (_, _) => Failed(""), (_, _) => LlmRaises);
      var req, n := Request("", "", oracle), settings.limits.maxRounds + 1;
      OverlapOutrunsLimit(settings, "", req, Null, Null, n);
      assert !StreaksWithin(SavedStatuses(settings, Begins("", req, n) + Ends("", n), ""), n - 1);
    }
  }
}
