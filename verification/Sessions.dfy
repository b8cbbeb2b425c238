/** The in-memory history store (api/session_store.py). */
module Sessions {
  import opened Wrappers
  import opened AgentState

  datatype ConversationHistory = ConversationHistory(
    lastStatus: Status,
    lastClarification: Option<string>,
    intent: Option<string>,
    ambiguityCount: nat,
    turns: seq<Turn>)

  const BLANK := ConversationHistory(Done, None, None, 0, [])

  type Entries = map<string, ConversationHistory>

  /** A session that was never saved has a blank history. */
  function Lookup(entries: Entries, session: string): ConversationHistory {
    if session in entries then entries[session] else BLANK
  }

  class SessionStore {
    var entries: Entries

    constructor ()
      ensures entries == map[]
    {
      entries := map[];
    }

    method Get(session: string) returns (history: ConversationHistory)
      ensures history == Lookup(entries, session)
    {
      if session in entries {
        history := entries[session];
      } else {
        history := BLANK;
      }
    }

    method Save(session: string, history: ConversationHistory)
      modifies this
      ensures Lookup(entries, session) == history
      ensures forall other | other != session :: Lookup(entries, other) == old(Lookup(entries, other))
      ensures entries == old(entries)[session := history]
    {
      entries := entries[session := history];
    }
  }
}
