/**
 Requests of many sessions in flight at once. A request reads its session when it begins, runs on that snapshot,
 and saves when it ends (api/routes.py); between the two, other requests begin and end in any order.
 */
module Interleaving {
  import opened Wrappers
  import opened Sessions
  import opened Conversation

  /** A request, named by its session and a number. */
  datatype Id = Id(session: string, serial: nat)

  datatype Pending = Pending(request: Request, snapshot: ConversationHistory)

  /** A request that has ended, and what its client was told. */
  datatype Entry = Entry(id: Id, request: Request, response: Response)

  datatype Transition = Begin(id: Id, request: Request) | End(id: Id)

  datatype System = System(store: Entries, pending: map<Id, Pending>, log: seq<Entry>)

  function Initial(store: Entries): System {
    System(store, map[], [])
  }

  function Commit(store: Entries, session: string, saved: Option<ConversationHistory>): Entries {
    if saved.Some? then store[session := saved.value] else store
  }

  /** A request begins once until it has ended; ending commits or, after an exception, only answers. */
  function Next(settings: Settings, sys: System, event: Transition): System {
    match event
    case Begin(id, request) =>
      if id in sys.pending then sys
      else sys.(pending := sys.pending[id := Pending(request, Lookup(sys.store, id.session))])
    case End(id) =>
      if id !in sys.pending then sys
      else
        var p := sys.pending[id];
        var served := Serve(settings, p.snapshot, p.request);
        System(
          Commit(sys.store, id.session, served.saved),
          sys.pending - {id},
          sys.log + [Entry(id, p.request, served.response)])
  }

  function Exec(settings: Settings, sys: System, events: seq<Transition>): System
    decreases |events|
  {
    if events == [] then sys else Exec(settings, Next(settings, sys, events[0]), events[1..])
  }

  /** No request begins while another one of its session is in flight. */
  ghost predicate NonOverlapping(settings: Settings, sys: System, events: seq<Transition>)
    decreases |events|
  {
    events == []
    || (&& (events[0].Begin? ==> forall id | id in sys.pending :: id.session != events[0].id.session)
        && NonOverlapping(settings, Next(settings, sys, events[0]), events[1..]))
  }

  // ---- Serializability ----

  datatype Call = Call(id: Id, request: Request)

  function CallsOf(log: seq<Entry>): (calls: seq<Call>)
    ensures |calls| == |log|
  {
    seq(|log|, i requires 0 <= i < |log| => Call(log[i].id, log[i].request))
  }

  /** The calls one at a time, each from the store the one before left. */
  function Serial(settings: Settings, store: Entries, calls: seq<Call>): System {
    if calls == [] then Initial(store)
    else
      var n := |calls| - 1;
      var was := Serial(settings, store, calls[..n]);
      var session := calls[n].id.session;
      var served := Serve(settings, Lookup(was.store, session), calls[n].request);
      System(
        Commit(was.store, session, served.saved), map[],
        was.log + [Entry(calls[n].id, calls[n].request, served.response)])
  }

  /** Every pending snapshot is still the store's, and no session has two. */
  ghost predicate IsCurrent(store: Entries, pending: map<Id, Pending>) {
    && (forall id | id in pending :: pending[id].snapshot == Lookup(store, id.session))
    && (forall id, id' | id in pending && id' in pending && id.session == id'.session :: id == id')
  }

  /** So far, store and log are those of the serial run. */
  ghost predicate IsSerial(settings: Settings, store0: Entries, sys: System) {
    && Serial(settings, store0, CallsOf(sys.log)) == System(sys.store, map[], sys.log)
    && IsCurrent(sys.store, sys.pending)
  }

  lemma SerialAppend(settings: Settings, store0: Entries, log: seq<Entry>, e: Entry)
    ensures var was := Serial(settings, store0, CallsOf(log));
            var served := Serve(settings, Lookup(was.store, e.id.session), e.request);
            Serial(settings, store0, CallsOf(log + [e]))
            == System(
                 Commit(was.store, e.id.session, served.saved), map[],
                 was.log + [Entry(e.id, e.request, served.response)])
  {
    var calls := CallsOf(log + [e]);
    assert calls[..|log|] == CallsOf(log) && calls[|log|] == Call(e.id, e.request);
  }

  lemma BeginKeepsCurrent(store: Entries, pending: map<Id, Pending>, id: Id, request: Request)
    requires IsCurrent(store, pending) && forall other | other in pending :: other.session != id.session
    ensures IsCurrent(store, pending[id := Pending(request, Lookup(store, id.session))])
  {
  }

  lemma EndKeepsCurrent(
    store: Entries, pending: map<Id, Pending>, id: Id, saved: Option<ConversationHistory>)
    requires IsCurrent(store, pending) && id in pending
    ensures IsCurrent(Commit(store, id.session, saved), pending - {id})
  {
  }

  lemma BeginKeepsSerial(settings: Settings, store0: Entries, sys: System, event: Transition)
    requires IsSerial(settings, store0, sys) && event.Begin?
    requires forall id | id in sys.pending :: id.session != event.id.session
    ensures IsSerial(settings, store0, Next(settings, sys, event))
  {
    BeginKeepsCurrent(sys.store, sys.pending, event.id, event.request);
  }

  lemma EndKeepsSerial(settings: Settings, store0: Entries, sys: System, event: Transition)
    requires IsSerial(settings, store0, sys) && event.End? && event.id in sys.pending
    ensures IsSerial(settings, store0, Next(settings, sys, event))
  {
    var p := sys.pending[event.id];
    var served := Serve(settings, p.snapshot, p.request);
    SerialAppend(settings, store0, sys.log, Entry(event.id, p.request, served.response));
    EndKeepsCurrent(sys.store, sys.pending, event.id, served.saved);
  }

  lemma {:induction false} ExecKeepsSerial(settings: Settings, store0: Entries, sys: System, events: seq<Transition>)
    requires IsSerial(settings, store0, sys) && NonOverlapping(settings, sys, events)
    ensures IsSerial(settings, store0, Exec(settings, sys, events))
    decreases |events|
  {
    if events != [] {
      if events[0].Begin? {
        BeginKeepsSerial(settings, store0, sys, events[0]);
      } else if events[0].id in sys.pending {
        EndKeepsSerial(settings, store0, sys, events[0]);
      }
      ExecKeepsSerial(settings, store0, Next(settings, sys, events[0]), events[1..]);
    }
  }

  /**
   If no two requests of a session overlap, the store and every response are those of running the ended requests one
   at a time, in the order in which they ended.
   */
  lemma Serializable(settings: Settings, store0: Entries, events: seq<Transition>)
    requires NonOverlapping(settings, Initial(store0), events)
    ensures var sys := Exec(settings, Initial(store0), events);
            var serial := Serial(settings, store0, CallsOf(sys.log));
            serial.store == sys.store && serial.log == sys.log
  {
    ExecKeepsSerial(settings, store0, Initial(store0), events);
  }

  function CommittedOf(log: seq<Entry>): seq<Entry> {
    if log == [] then []
    else
      var last := log[|log| - 1];
      CommittedOf(log[..|log| - 1]) + if last.response.Reply? then [last] else []
  }

  lemma SerialLogPrefix(settings: Settings, store0: Entries, log: seq<Entry>, e: Entry)
    requires Serial(settings, store0, CallsOf(log + [e])).log == log + [e]
    ensures Serial(settings, store0, CallsOf(log)).log == log
    ensures var was := Serial(settings, store0, CallsOf(log));
            e.response == Serve(settings, Lookup(was.store, e.id.session), e.request).response
  {
    SerialAppend(settings, store0, log, e);
    var was := Serial(settings, store0, CallsOf(log));
    var last := Entry(e.id, e.request, Serve(settings, Lookup(was.store, e.id.session), e.request).response);
    assert was.log + [last] == log + [e];
    assert (was.log + [last])[..|was.log|] == was.log && (log + [e])[..|log|] == log;
    assert (was.log + [last])[|was.log|] == last;
  }

  /** Requests that failed can be left out of the serial run: store and replies stay the same. */
  lemma {:induction false} FailedCallsLeaveNoTrace(settings: Settings, store0: Entries, log: seq<Entry>)
    requires Serial(settings, store0, CallsOf(log)).log == log
    ensures var serial := Serial(settings, store0, CallsOf(CommittedOf(log)));
            && serial.log == CommittedOf(log)
            && serial.store == Serial(settings, store0, CallsOf(log)).store
  {
    if log != [] {
      var was, e := log[..|log| - 1], log[|log| - 1];
      assert log == was + [e];
      SerialLogPrefix(settings, store0, was, e);
      FailedCallsLeaveNoTrace(settings, store0, was);
      SerialAppend(settings, store0, was, e);
      ServedFacts(settings, Lookup(Serial(settings, store0, CallsOf(was)).store, e.id.session), e.request);
      if e.response.Reply? {
        SerialAppend(settings, store0, CommittedOf(was), e);
        assert CommittedOf(log) == CommittedOf(was) + [e];
      } else {
        assert CommittedOf(log) == CommittedOf(was);
      }
    }
  }

  /** So it is enough to run the committed requests one at a time, in commit order. */
  lemma SerializableByCommits(settings: Settings, store0: Entries, events: seq<Transition>)
    requires NonOverlapping(settings, Initial(store0), events)
    ensures var sys := Exec(settings, Initial(store0), events);
            var serial := Serial(settings, store0, CallsOf(CommittedOf(sys.log)));
            serial.store == sys.store && serial.log == CommittedOf(sys.log)
  {
    Serializable(settings, store0, events);
    FailedCallsLeaveNoTrace(settings, store0, Exec(settings, Initial(store0), events).log);
  }

  // ---- Sessions do not interfere ----

  function LogOf(log: seq<Entry>, session: string): seq<Entry> {
    if log == [] then []
    else
      var last := log[|log| - 1];
      LogOf(log[..|log| - 1], session) + if last.id.session == session then [last] else []
  }

  function OnlyStore(store: Entries, session: string): Entries {
    map s | s in store && s == session :: store[s]
  }

  function OnlyPending(pending: map<Id, Pending>, session: string): map<Id, Pending> {
    map id | id in pending && id.session == session :: pending[id]
  }

  /** What of the system belongs to one session. */
  function Only(sys: System, session: string): System {
    System(OnlyStore(sys.store, session), OnlyPending(sys.pending, session), LogOf(sys.log, session))
  }

  function EventsOf(events: seq<Transition>, session: string): seq<Transition> {
    if events == [] then []
    else (if events[0].id.session == session then [events[0]] else []) + EventsOf(events[1..], session)
  }

  lemma LogOfAppend(log: seq<Entry>, e: Entry, session: string)
    ensures LogOf(log + [e], session) == LogOf(log, session) + if e.id.session == session then [e] else []
  {
    assert (log + [e])[..|log|] == log;
  }

  lemma OtherCommitIsInvisible(store: Entries, other: string, saved: Option<ConversationHistory>, session: string)
    requires other != session
    ensures OnlyStore(Commit(store, other, saved), session) == OnlyStore(store, session)
  {
  }

  lemma OtherPendingIsInvisible(pending: map<Id, Pending>, id: Id, p: Pending, session: string)
    requires id.session != session
    ensures OnlyPending(pending[id := p], session) == OnlyPending(pending, session)
    ensures OnlyPending(pending - {id}, session) == OnlyPending(pending, session)
  {
  }

  lemma OtherEventIsInvisible(settings: Settings, sys: System, event: Transition, session: string)
    requires event.id.session != session
    ensures Only(Next(settings, sys, event), session) == Only(sys, session)
  {
    match event {
      case Begin(id, request) =>
        OtherPendingIsInvisible(sys.pending, id, Pending(request, Lookup(sys.store, id.session)), session);
      case End(id) =>
        if id in sys.pending {
          var p := sys.pending[id];
          var served := Serve(settings, p.snapshot, p.request);
          OtherCommitIsInvisible(sys.store, id.session, served.saved, session);
          OtherPendingIsInvisible(sys.pending, id, p, session);
          LogOfAppend(sys.log, Entry(id, p.request, served.response), session);
        }
    }
  }

  lemma OwnCommitIsLocal(store: Entries, session: string, saved: Option<ConversationHistory>)
    ensures OnlyStore(Commit(store, session, saved), session) == Commit(OnlyStore(store, session), session, saved)
  {
  }

  lemma OwnPendingIsLocal(pending: map<Id, Pending>, id: Id, p: Pending)
    ensures OnlyPending(pending[id := p], id.session) == OnlyPending(pending, id.session)[id := p]
    ensures OnlyPending(pending - {id}, id.session) == OnlyPending(pending, id.session) - {id}
  {
  }

  lemma OwnEventIsLocal(settings: Settings, sys: System, event: Transition, session: string)
    requires event.id.session == session
    ensures Only(Next(settings, sys, event), session) == Next(settings, Only(sys, session), event)
  {
    assert event.id in sys.pending <==> event.id in OnlyPending(sys.pending, session);
    match event {
      case Begin(id, request) =>
        OwnPendingIsLocal(sys.pending, id, Pending(request, Lookup(sys.store, session)));
      case End(id) =>
        if id in sys.pending {
          var p := sys.pending[id];
          var served := Serve(settings, p.snapshot, p.request);
          OwnCommitIsLocal(sys.store, session, served.saved);
          OwnPendingIsLocal(sys.pending, id, p);
          LogOfAppend(sys.log, Entry(id, p.request, served.response), session);
        }
    }
  }

  lemma {:induction false} ExecIsLocal(settings: Settings, sys: System, events: seq<Transition>, session: string)
    ensures Only(Exec(settings, sys, events), session)
         == Exec(settings, Only(sys, session), EventsOf(events, session))
    decreases |events|
  {
    if events != [] {
      var event, rest := events[0], events[1..];
      ExecIsLocal(settings, Next(settings, sys, event), rest, session);
      if event.id.session == session {
        OwnEventIsLocal(settings, sys, event, session);
        assert EventsOf(events, session) == [event] + EventsOf(rest, session);
      } else {
        OtherEventIsInvisible(settings, sys, event, session);
        assert EventsOf(events, session) == EventsOf(rest, session);
      }
    }
  }

  lemma {:induction false} EventsOfTwice(events: seq<Transition>, session: string)
    ensures EventsOf(EventsOf(events, session), session) == EventsOf(events, session)
  {
    if events != [] {
      EventsOfTwice(events[1..], session);
      var rest := EventsOf(events[1..], session);
      if events[0].id.session == session {
        assert ([events[0]] + rest)[1..] == rest;
      } else {
        assert [] + rest == rest;
      }
    }
  }

  /** Deleting every event of the other sessions changes nothing of a session: its entry, its requests, its replies. */
  lemma SessionsDoNotInterfere(settings: Settings, sys: System, events: seq<Transition>, session: string)
    ensures Only(Exec(settings, sys, events), session)
         == Only(Exec(settings, sys, EventsOf(events, session)), session)
  {
    ExecIsLocal(settings, sys, events, session);
    ExecIsLocal(settings, sys, EventsOf(events, session), session);
    EventsOfTwice(events, session);
  }
}
