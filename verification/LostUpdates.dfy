/**
 Exactly when overlapping requests of a session are serializable: when none saves over what another one has saved
 since it began.
 */
module LostUpdates {
  import opened Sessions
  import opened Conversation
  import opened Interleaving

  function CommitCount(log: seq<Entry>, session: string): nat {
    if log == [] then 0
    else
      var last := log[|log| - 1];
      CommitCount(log[..|log| - 1], session) + if last.id.session == session && last.response.Reply? then 1 else 0
  }

  /** How many requests of its session had committed when each request began. */
  function Noted(sys: System, begun: map<Id, nat>, event: Transition): map<Id, nat> {
    if event.Begin? && event.id !in sys.pending then begun[event.id := CommitCount(sys.log, event.id.session)]
    else begun
  }

  /** The event ends a request that commits. */
  predicate EndsInCommit(settings: Settings, sys: System, event: Transition) {
    && event.End? && event.id in sys.pending
    && Serve(settings, sys.pending[event.id].snapshot, sys.pending[event.id].request).saved.Some?
  }

  /** If the event commits, no other request of the session has committed since this one began. */
  predicate IsCurrentCommit(settings: Settings, sys: System, begun: map<Id, nat>, event: Transition) {
    EndsInCommit(settings, sys, event) ==>
      event.id in begun && begun[event.id] == CommitCount(sys.log, event.id.session)
  }

  /** No request commits after another one of its session has committed since it began. */
  predicate CommitsAreCurrent(settings: Settings, sys: System, begun: map<Id, nat>, events: seq<Transition>)
    decreases |events|
  {
    events == []
    || (&& IsCurrentCommit(settings, sys, begun, events[0])
        && CommitsAreCurrent(settings, Next(settings, sys, events[0]), Noted(sys, begun, events[0]), events[1..]))
  }

  function Size(store: Entries, session: string): nat {
    |Lookup(store, session).turns|
  }

  lemma CommitAppend(log: seq<Entry>, e: Entry, session: string)
    ensures CommitCount(log + [e], session)
         == CommitCount(log, session) + if e.id.session == session && e.response.Reply? then 1 else 0
    ensures CommittedOf(log + [e]) == CommittedOf(log) + if e.response.Reply? then [e] else []
  {
    assert (log + [e])[..|log|] == log;
  }

  // ---- What every execution keeps ----

  /** A snapshot is the store's own until the next commit, and holds no more than the commits before it brought. */
  predicate IsTrackedPending(store0: Entries, sys: System, begun: map<Id, nat>, id: Id)
    requires id in sys.pending
  {
    var snapshot, count := sys.pending[id].snapshot, CommitCount(sys.log, id.session);
    && id in begun && begun[id] <= count
    && (begun[id] == count ==> snapshot == Lookup(sys.store, id.session))
    && |snapshot.turns| <= Size(store0, id.session) + 2 * begun[id]
  }

  ghost predicate IsTracked(store0: Entries, sys: System, begun: map<Id, nat>) {
    && (forall id | id in sys.pending :: IsTrackedPending(store0, sys, begun, id))
    && (forall s :: Size(sys.store, s) <= Size(store0, s) + 2 * CommitCount(sys.log, s))
  }

  lemma BeginKeepsTracked(settings: Settings, store0: Entries, sys: System, begun: map<Id, nat>, event: Transition)
    requires IsTracked(store0, sys, begun) && event.Begin?
    ensures IsTracked(store0, Next(settings, sys, event), Noted(sys, begun, event))
  {
    var sys', begun' := Next(settings, sys, event), Noted(sys, begun, event);
    forall id | id in sys'.pending ensures IsTrackedPending(store0, sys', begun', id) {
      if id in sys.pending {
        assert IsTrackedPending(store0, sys, begun, id);
      }
    }
  }

  lemma SizesStayTracked(settings: Settings, store0: Entries, sys: System, begun: map<Id, nat>, event: Transition)
    requires IsTracked(store0, sys, begun) && event.End? && event.id in sys.pending
    ensures var sys' := Next(settings, sys, event);
            forall s :: Size(sys'.store, s) <= Size(store0, s) + 2 * CommitCount(sys'.log, s)
  {
    var sys', p := Next(settings, sys, event), sys.pending[event.id];
    var served := Serve(settings, p.snapshot, p.request);
    ServedFacts(settings, p.snapshot, p.request);
    assert IsTrackedPending(store0, sys, begun, event.id);
    forall s ensures Size(sys'.store, s) <= Size(store0, s) + 2 * CommitCount(sys'.log, s) {
      CommitAppend(sys.log, Entry(event.id, p.request, served.response), s);
    }
  }

  lemma EndKeepsTracked(settings: Settings, store0: Entries, sys: System, begun: map<Id, nat>, event: Transition)
    requires IsTracked(store0, sys, begun) && event.End? && event.id in sys.pending
    ensures IsTracked(store0, Next(settings, sys, event), begun)
  {
    var sys', p := Next(settings, sys, event), sys.pending[event.id];
    var served := Serve(settings, p.snapshot, p.request);
    var e := Entry(event.id, p.request, served.response);
    ServedFacts(settings, p.snapshot, p.request);
    assert IsTrackedPending(store0, sys, begun, event.id);
    SizesStayTracked(settings, store0, sys, begun, event);
    forall id | id in sys'.pending ensures IsTrackedPending(store0, sys', begun, id) {
      CommitAppend(sys.log, e, id.session);
      assert IsTrackedPending(store0, sys, begun, id);
    }
  }

  lemma NextKeepsTracked(settings: Settings, store0: Entries, sys: System, begun: map<Id, nat>, event: Transition)
    requires IsTracked(store0, sys, begun)
    ensures IsTracked(store0, Next(settings, sys, event), Noted(sys, begun, event))
  {
    if event.Begin? {
      BeginKeepsTracked(settings, store0, sys, begun, event);
    } else if event.id in sys.pending {
      EndKeepsTracked(settings, store0, sys, begun, event);
    }
  }

  // ---- Current commits are serial ----

  /** The commits so far are explained by running them one at a time. */
  ghost predicate IsSerialByCommits(settings: Settings, store0: Entries, sys: System) {
    var serial := Serial(settings, store0, CallsOf(CommittedOf(sys.log)));
    serial.store == sys.store && serial.log == CommittedOf(sys.log)
  }

  lemma NextKeepsSerialByCommits(
    settings: Settings, store0: Entries, sys: System, begun: map<Id, nat>, event: Transition)
    requires IsTracked(store0, sys, begun) && IsSerialByCommits(settings, store0, sys)
    requires IsCurrentCommit(settings, sys, begun, event)
    ensures IsSerialByCommits(settings, store0, Next(settings, sys, event))
  {
    if event.End? && event.id in sys.pending {
      var p := sys.pending[event.id];
      var served := Serve(settings, p.snapshot, p.request);
      ServedFacts(settings, p.snapshot, p.request);
      var e := Entry(event.id, p.request, served.response);
      CommitAppend(sys.log, e, event.id.session);
      if served.saved.Some? {
        SerialAppend(settings, store0, CommittedOf(sys.log), e);
      } else {
        assert CommittedOf(sys.log + [e]) == CommittedOf(sys.log);
      }
    }
  }

  // ---- A lost update is never made up for ----

  /** The session holds less than its commits brought, and so does whatever is still in flight. */
  ghost predicate HasLost(store0: Entries, sys: System, session: string) {
    var full := Size(store0, session) + 2 * CommitCount(sys.log, session);
    && Size(sys.store, session) < full
    && forall id | id in sys.pending && id.session == session :: |sys.pending[id].snapshot.turns| < full
  }

  lemma StaleCommitLoses(
    settings: Settings, store0: Entries, sys: System, begun: map<Id, nat>, event: Transition)
    requires IsTracked(store0, sys, begun) && !IsCurrentCommit(settings, sys, begun, event)
    ensures HasLost(store0, Next(settings, sys, event), event.id.session)
  {
    var p := sys.pending[event.id];
    var served := Serve(settings, p.snapshot, p.request);
    ServedFacts(settings, p.snapshot, p.request);
    CommitAppend(sys.log, Entry(event.id, p.request, served.response), event.id.session);
  }

  lemma NextKeepsLost(settings: Settings, store0: Entries, sys: System, event: Transition, session: string)
    requires HasLost(store0, sys, session)
    ensures HasLost(store0, Next(settings, sys, event), session)
  {
    if event.End? && event.id in sys.pending {
      var p := sys.pending[event.id];
      var served := Serve(settings, p.snapshot, p.request);
      ServedFacts(settings, p.snapshot, p.request);
      CommitAppend(sys.log, Entry(event.id, p.request, served.response), session);
    }
  }

  lemma {:induction false} ExecKeepsLost(
    settings: Settings, store0: Entries, sys: System, events: seq<Transition>, session: string)
    requires HasLost(store0, sys, session)
    ensures HasLost(store0, Exec(settings, sys, events), session)
    decreases |events|
  {
    if events != [] {
      NextKeepsLost(settings, store0, sys, events[0], session);
      ExecKeepsLost(settings, store0, Next(settings, sys, events[0]), events[1..], session);
    }
  }

  lemma CurrentCommitGrows(settings: Settings, store: Entries, id: Id, req: Request, session: string)
    ensures var served := Serve(settings, Lookup(store, id.session), req);
            Size(Commit(store, id.session, served.saved), session)
            == Size(store, session) + if id.session == session && served.response.Reply? then 2 else 0
  {
    ServedFacts(settings, Lookup(store, id.session), req);
  }

  /** One request at a time, every commit brings its exchange. */
  lemma {:induction false} SerialLosesNothing(settings: Settings, store0: Entries, log: seq<Entry>, session: string)
    requires Serial(settings, store0, CallsOf(log)).log == log
    ensures Size(Serial(settings, store0, CallsOf(log)).store, session)
         == Size(store0, session) + 2 * CommitCount(log, session)
  {
    if log != [] {
      var was, e := log[..|log| - 1], log[|log| - 1];
      assert log == was + [e];
      SerialLogPrefix(settings, store0, was, e);
      SerialLosesNothing(settings, store0, was, session);
      SerialAppend(settings, store0, was, e);
      CurrentCommitGrows(settings, Serial(settings, store0, CallsOf(was)).store, e.id, e.request, session);
    }
  }

  lemma {:induction false} CommittedCount(log: seq<Entry>, session: string)
    ensures CommitCount(CommittedOf(log), session) == CommitCount(log, session)
  {
    if log != [] {
      var was, e := log[..|log| - 1], log[|log| - 1];
      assert log == was + [e];
      CommittedCount(was, session);
      CommitAppend(was, e, session);
      CommitAppend(CommittedOf(was), e, session);
      assert CommittedOf(was) + [] == CommittedOf(was);
    }
  }

  lemma LostIsNotSerial(settings: Settings, store0: Entries, sys: System, session: string)
    requires HasLost(store0, sys, session)
    ensures !IsSerialByCommits(settings, store0, sys)
  {
    if IsSerialByCommits(settings, store0, sys) {
      SerialLosesNothing(settings, store0, CommittedOf(sys.log), session);
      CommittedCount(sys.log, session);
      assert false;
    }
  }

  // ---- The exact condition ----

  lemma {:induction false} ExecIsSerialIff(
    settings: Settings, store0: Entries, sys: System, begun: map<Id, nat>, events: seq<Transition>)
    requires IsTracked(store0, sys, begun) && IsSerialByCommits(settings, store0, sys)
    ensures IsSerialByCommits(settings, store0, Exec(settings, sys, events))
       <==> CommitsAreCurrent(settings, sys, begun, events)
    decreases |events|
  {
    if events != [] {
      var event, rest := events[0], events[1..];
      if !IsCurrentCommit(settings, sys, begun, event) {
        StaleCommitLoses(settings, store0, sys, begun, event);
        ExecKeepsLost(settings, store0, Next(settings, sys, event), rest, event.id.session);
        LostIsNotSerial(settings, store0, Exec(settings, sys, events), event.id.session);
      } else {
        NextKeepsTracked(settings, store0, sys, begun, event);
        NextKeepsSerialByCommits(settings, store0, sys, begun, event);
        ExecIsSerialIff(settings, store0, Next(settings, sys, event), Noted(sys, begun, event), rest);
      }
    }
  }

  /**
   Store and replies of the committed requests are those of running them one at a time, in commit order, iff no
   request commits after another one of its session has committed since it began.
   */
  lemma SerializableIffCommitsAreCurrent(settings: Settings, store0: Entries, events: seq<Transition>)
    ensures var sys := Exec(settings, Initial(store0), events);
            var serial := Serial(settings, store0, CallsOf(CommittedOf(sys.log)));
            serial.store == sys.store && serial.log == CommittedOf(sys.log)
            <==> CommitsAreCurrent(settings, Initial(store0), map[], events)
  {
    assert CallsOf([]) == [];
    ExecIsSerialIff(settings, store0, Initial(store0), map[], events);
  }

  /** Requests that do not overlap never commit over one another. */
  lemma NonOverlappingIsCurrent(settings: Settings, store0: Entries, events: seq<Transition>)
    requires NonOverlapping(settings, Initial(store0), events)
    ensures CommitsAreCurrent(settings, Initial(store0), map[], events)
  {
    SerializableByCommits(settings, store0, events);
    SerializableIffCommitsAreCurrent(settings, store0, events);
  }

  // ---- The smallest example ----

  lemma ExecFour(settings: Settings, sys: System, events: seq<Transition>)
    requires |events| == 4
    ensures Exec(settings, sys, events)
         == Next(settings, Next(settings, Next(settings, Next(settings, sys, events[0]), events[1]), events[2]),
                 events[3])
  {
    assert events[1..][1..] == events[2..] && events[2..][1..] == events[3..] && events[3..][1..] == [];
    assert events[1..][0] == events[1] && events[2..][0] == events[2] && events[3..][0] == events[3];
    var s1 := Next(settings, sys, events[0]);
    var s2 := Next(settings, s1, events[1]);
    var s3 := Next(settings, s2, events[2]);
    assert Exec(settings, s3, events[3..]) == Next(settings, s3, events[3]);
    assert Exec(settings, s2, events[2..]) == Exec(settings, s3, events[3..]);
    assert Exec(settings, s1, events[1..]) == Exec(settings, s2, events[2..]);
  }

  function TwoOverlapping(a: Id, first: Request, b: Id, second: Request): seq<Transition> {
    [Begin(a, first), Begin(b, second), Transition.End(a), Transition.End(b)]
  }

  lemma TwoOverlappingEnd(settings: Settings, store: Entries, a: Id, first: Request, b: Id, second: Request)
    requires a != b && a.session == b.session
    ensures var h := Lookup(store, b.session);
            var sys := Exec(settings, Initial(store), TwoOverlapping(a, first, b, second));
            var one, two := Serve(settings, h, first), Serve(settings, h, second);
            && sys.store == Commit(Commit(store, a.session, one.saved), b.session, two.saved)
            && sys.log == [Entry(a, first, one.response)] + [Entry(b, second, two.response)]
  {
    ExecFour(settings, Initial(store), TwoOverlapping(a, first, b, second));
    var s1 := Next(settings, Initial(store), Begin(a, first));
    var s2 := Next(settings, s1, Begin(b, second));
    var s3 := Next(settings, s2, Transition.End(a));
    assert s2.pending[b] == Pending(second, Lookup(store, b.session)) && s3.pending[b] == s2.pending[b];
  }

  /** Both have begun on the same history and one has ended. */
  function FirstEnded(settings: Settings, store: Entries, a: Id, first: Request, b: Id, second: Request): System {
    var h := Lookup(store, b.session);
    var one := Serve(settings, h, first);
    System(Commit(store, a.session, one.saved), map[b := Pending(second, h)], [Entry(a, first, one.response)])
  }

  lemma FirstEndIsCurrent(settings: Settings, store: Entries, a: Id, first: Request, b: Id, second: Request)
    requires a != b && a.session == b.session
    ensures CommitsAreCurrent(settings, Initial(store), map[], TwoOverlapping(a, first, b, second))
       <==> CommitsAreCurrent(
              settings, FirstEnded(settings, store, a, first, b, second), map[a := 0, b := 0], [Transition.End(b)])
  {
    var h := Lookup(store, b.session);
    var s1 := System(store, map[a := Pending(first, h)], []);
    var s2 := System(store, map[a := Pending(first, h), b := Pending(second, h)], []);
    var events := TwoOverlapping(a, first, b, second);
    var ends := [Transition.End(a), Transition.End(b)];
    assert Next(settings, Initial(store), events[0]) == s1 && Next(settings, s1, events[1]) == s2;
    assert s2.pending - {a} == map[b := Pending(second, h)];
    assert Next(settings, s2, ends[0]) == FirstEnded(settings, store, a, first, b, second);
    assert events[1..][1..] == ends && ends[1..] == [Transition.End(b)];
    assert IsCurrentCommit(settings, s2, map[a := 0, b := 0], ends[0]);
    assert CommitsAreCurrent(settings, s1, map[a := 0], events[1..])
      <==> CommitsAreCurrent(settings, s2, map[a := 0, b := 0], ends);
  }

  /** Two requests of a session that overlap are still serializable iff one of them fails. */
  lemma TwoOverlappingAreCurrentIff(
    settings: Settings, store: Entries, a: Id, first: Request, b: Id, second: Request)
    requires a != b && a.session == b.session
    ensures var h := Lookup(store, b.session);
            CommitsAreCurrent(settings, Initial(store), map[], TwoOverlapping(a, first, b, second))
            <==> Serve(settings, h, first).saved.None? || Serve(settings, h, second).saved.None?
  {
    var sys := FirstEnded(settings, store, a, first, b, second);
    FirstEndIsCurrent(settings, store, a, first, b, second);
    ServedFacts(settings, Lookup(store, b.session), first);
    CommitAppend([], sys.log[0], b.session);
    assert [] + [sys.log[0]] == sys.log;
    assert Noted(sys, map[a := 0, b := 0], Transition.End(b)) == map[a := 0, b := 0];
  }

  /**
   Of two requests of one session in flight together that both commit, the one that ends last saves over the turns of
   the other, and no serial run in the order of the ends leaves this store and these replies.
   */
  lemma LastToEndWins(settings: Settings, store: Entries, a: Id, first: Request, b: Id, second: Request)
    requires a != b && a.session == b.session
    requires Serve(settings, Lookup(store, b.session), first).saved.Some?
    requires Serve(settings, Lookup(store, b.session), second).saved.Some?
    ensures var h := Lookup(store, b.session);
            var sys := Exec(settings, Initial(store), TwoOverlapping(a, first, b, second));
            var serial := Serial(settings, store, CallsOf(sys.log));
            && Lookup(sys.store, b.session).turns
            == h.turns + Exchange(second.question, Serve(settings, h, second).response.answer)
            && !(serial.store == sys.store && serial.log == sys.log)
  {
    var h := Lookup(store, b.session);
    var sys := Exec(settings, Initial(store), TwoOverlapping(a, first, b, second));
    TwoOverlappingEnd(settings, store, a, first, b, second);
    ServedFacts(settings, h, first);
    ServedFacts(settings, h, second);
    CommitAppend([], sys.log[0], b.session);
    CommitAppend([sys.log[0]], sys.log[1], b.session);
    assert [] + [sys.log[0]] == [sys.log[0]];
    assert CommitCount(sys.log, b.session) == 2;
    if Serial(settings, store, CallsOf(sys.log)).log == sys.log {
      SerialLosesNothing(settings, store, sys.log, b.session);
    }
  }
}
