/**
 The chat endpoint (api/routes.py) as an object over the session store. The handler is one coroutine that gives way
 to others while the graph runs, so it is cut in two there: what it does before, and what it does after.
 */
module Routes {
  import opened Wrappers
  import opened PyText
  import opened AgentState
  import opened Nodes
  import opened Graph
  import opened Sessions
  import opened Conversation
  import opened Interleaving

  class ChatServer {
    const settings: Settings
    const sessions: SessionStore
    const graph: Workflow
    var pending: map<Id, Pending>
    ghost var log: seq<Entry>

    constructor (settings: Settings)
      ensures Valid() && fresh(sessions) && fresh(graph)
      ensures this.settings == settings && Abstract() == Initial(map[])
    {
      this.settings := settings;
      var store := new SessionStore();
      var workflow := BuildGraph();
      sessions := store;
      graph := workflow;
      pending := map[];
      log := [];
    }

    ghost predicate Valid()
      reads this, graph
    {
      graph.Wired()
    }

    ghost function Abstract(): System
      reads this, sessions
    {
      System(sessions.entries, pending, log)
    }

    /** Up to the call of the graph: the history is read and kept. */
    method BeginChat(id: Id, request: Request)
      requires Valid() && id !in pending
      modifies this`pending
      ensures Valid() && Abstract() == Next(settings, old(Abstract()), Transition.Begin(id, request))
    {
      var history := sessions.Get(id.session);
      pending := pending[id := Pending(request, history)];
    }

    /** From the call of the graph on: the result is saved over whatever the session holds by now. */
    method EndChat(id: Id) returns (response: Response)
      requires Valid() && id in pending
      modifies this`pending, this`log, sessions
      ensures Valid() && Abstract() == Next(settings, old(Abstract()), Transition.End(id))
      ensures response == Serve(settings, old(pending)[id].snapshot, old(pending)[id].request).response
    {
      var req, history := pending[id].request, pending[id].snapshot;
      var isContinuation := history.lastStatus == AskingClarification;
      var window := settings.window * 2;
      var state := State(
        question := req.question,
        schemaContext := req.schema,
        sql := None,
        sqlError := None,
        retryCount := 0,
        dbResults := None,
        answer := None,
        status := Analyzing,
        history := SliceFrom(history.turns, -window),
        intent := if isContinuation then history.intent else None,
        lastClarification := if isContinuation then history.lastClarification else None,
        ambiguityCount := if isContinuation then history.ambiguityCount else 0);
      var p := graph.Invoke(Config(settings.limits, req.oracle), state);
      assert p == RunFor(settings, history, req);
      if p.phase == Finished {
        var result := p.st;
        var newTurns := history.turns + [Turn(User, req.question), Turn(Assistant, OrElse(result.answer, ""))];
        sessions.Save(
          id.session,
          ConversationHistory(
            result.status, result.lastClarification, result.intent, result.ambiguityCount, newTurns));
        var code := 200;
        if result.status == Error {
          code := 422;
        }
        response := Reply(result.answer, result.status, code);
      } else {
        response := InternalError;
      }
      pending := pending - {id};
      log := log + [Entry(id, req, response)];
    }

    /** A request that no other one interrupts. */
    method Chat(id: Id, request: Request) returns (response: Response)
      requires Valid() && id !in pending
      modifies this`pending, this`log, sessions
      ensures Valid() && pending == old(pending)
      ensures var served := Serve(settings, old(Lookup(sessions.entries, id.session)), request);
              && response == served.response
              && sessions.entries == Commit(old(sessions.entries), id.session, served.saved)
    {
      BeginChat(id, request);
      response := EndChat(id);
    }
  }
}
