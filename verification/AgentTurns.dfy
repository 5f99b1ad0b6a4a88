/** A user's turn as the agent takes it in: the session is started if need be, the request is noted in memory, and
    it joins the history. */
module AgentTurns {
  import opened Words
  import opened Utf8
  import opened AgentSession
  import opened AgentMemory

  class Agent {
    const session: Session
    const state: SessionState
    const memory: Memory
    var started: bool

    ghost predicate Valid()
      reads this, session, session.history, state, memory
    {
      session.Valid() && state.Valid() && memory.Valid()
    }

    /** The history and the memory as the next turn finds them: empty before the session is started. */
    ghost function History(): seq<Byte>
      requires Valid()
      reads this, session, session.history, state, memory
    {
      if started then session.History() else []
    }

    ghost function Known(): seq<Entry>
      reads this, memory
    {
      if started then memory.Known() else seq(SLOT_COUNT, _ => EMPTY)
    }

    ghost function Turn(): nat
      reads this, memory
    {
      if started then memory.Turn() else 0
    }

    constructor (session: Session, state: SessionState, memory: Memory)
      requires session.Valid() && state.Valid() && memory.Valid()
      ensures Valid() && !started && this.session == session && this.state == state && this.memory == memory
    {
      this.session, this.state, this.memory, started := session, state, memory, false;
    }

    /** `ensure_session_started` and `session_reset`. */
    method EnsureSessionStarted()
      requires Valid()
      modifies `started, session`historyLen, state, memory
      ensures Valid() && started
      ensures session.History() == old(History()) && memory.Known() == old(Known()) && memory.Turn() == old(Turn())
      ensures if old(started) then state.keys == old(state.keys) && state.values == old(state.values)
              else forall k, v :: !state.Maps(k, v)
    {
      if started {
        return;
      }
      started := true;
      session.Reset();
      state.Reset();
      memory.ClearAll();
    }

    /** `append_user_turn`. */
    method AppendUserTurn(text: seq<Byte>)
      requires Valid()
      modifies `started, session, session.history, state, memory
      ensures Valid() && started
      ensures session.History() == Appended(Appended(Appended(old(History()), USER), text), [AgentSession.NEWLINE])
      ensures memory.started && memory.turn == (old(Turn()) + 1) % 0x1_0000
      ensures memory.slots == old(Known())[0 := Noted(old(Known())[0], text, memory.turn)]
      ensures if old(started) then state.keys == old(state.keys) && state.values == old(state.values)
              else forall k, v :: !state.Maps(k, v)
    {
      hide Noted, Appended, WellFormed;
      EnsureSessionStarted();
      memory.NoteUserRequest(text);
      session.AppendUserTurn(text);
    }
  }
}
