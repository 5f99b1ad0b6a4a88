/** The agent's session: a bounded history that stays well-formed UTF-8, the budgeted view of its
    end, and a small key/value state. */
module AgentSession {
  import opened Words
  import opened Utf8
  import opened Options
  import opened JsonCodec

  const HISTORY_MAX: nat := 16384
  const STATE_SLOTS: nat := 8
  const KEY_MAX: nat := 32
  const VALUE_MAX: nat := 2048
  const NEWLINE: Byte := 10

  /** "User: ", "Tool[", "]: " and "Assistant: ". */
  const USER: seq<Byte> := [85, 115, 101, 114, 58, 32]
  const TOOL: seq<Byte> := [84, 111, 111, 108, 91]
  const TOOL_END: seq<Byte> := [93, 58, 32]
  const ASSISTANT: seq<Byte> := [65, 115, 115, 105, 115, 116, 97, 110, 116, 58, 32]

  /** What appending to a history of bounded length keeps. */
  function Appended(history: seq<Byte>, bytes: seq<Byte>): seq<Byte>
    requires |history| <= HISTORY_MAX
  {
    history + bytes[..SafeLen(bytes, HISTORY_MAX - |history|)]
  }

  lemma AppendedWellFormed(history: seq<Byte>, bytes: seq<Byte>)
    requires |history| <= HISTORY_MAX && WellFormed(history)
    ensures WellFormed(Appended(history, bytes)) && |Appended(history, bytes)| <= HISTORY_MAX
  {
    SafeLenWellFormed(bytes, HISTORY_MAX - |history|);
    WellFormedAppend(history, bytes[..SafeLen(bytes, HISTORY_MAX - |history|)]);
  }

  /** The history without a final "User: goal" line. */
  function WithoutCurrent(history: seq<Byte>, goal: seq<Byte>): seq<Byte> {
    var line := USER + goal + [NEWLINE];
    if |history| >= |line| && history[|history| - |line|..] == line then history[..|history| - |line|] else history
  }

  function View(history: seq<Byte>, goal: seq<Byte>, budget: nat): seq<Byte> {
    var h := WithoutCurrent(history, goal);
    h[SuffixStart(h, budget)..]
  }

  /** The view of the history that goes into a prompt is well-formed, within budget, and at most three
      bytes short of the budget when the history is longer. */
  lemma ViewExact(history: seq<Byte>, goal: seq<Byte>, budget: nat)
    requires WellFormed(history)
    ensures var h, view := WithoutCurrent(history, goal), View(history, goal, budget);
            WellFormed(view) && |view| <= budget && (|h| > budget ==> |view| >= budget - 3)
  {
    hide WellFormed;
    var line := USER + goal + [NEWLINE];
    if WithoutCurrent(history, goal) != history {
      assert history[|history| - |line|..][0] == 85;
      PrefixAtStart(history, |history| - |line|);
    }
    SuffixExact(WithoutCurrent(history, goal), budget);
  }

  class Session {
    const history: array<Byte>
    var historyLen: nat

    ghost predicate Valid()
      reads this, history
    {
      history.Length == HISTORY_MAX && historyLen <= HISTORY_MAX && WellFormed(History())
    }

    ghost function History(): seq<Byte>
      requires historyLen <= history.Length
      reads this, history
    {
      history[..historyLen]
    }

    constructor ()
      ensures Valid() && fresh(history) && History() == []
    {
      history := new Byte[HISTORY_MAX](_ => 0);
      historyLen := 0;
    }

    method Reset()
      requires Valid()
      modifies `historyLen
      ensures Valid() && History() == []
    {
      historyLen := 0;
      assert History() == [];
    }

    method AppendBytes(bytes: seq<Byte>)
      requires Valid()
      modifies `historyLen, history
      ensures Valid() && History() == Appended(old(History()), bytes)
    {
      hide WellFormed, SeqLen;
      var remaining := history.Length - historyLen;
      var take := SafePrefixLen(bytes, remaining);
      AppendedWellFormed(History(), bytes);
      ghost var before := History();
      var i := 0;
      while i < take
        invariant 0 <= i <= take && historyLen == old(historyLen) + i
        invariant History() == before + bytes[..i]
        modifies `historyLen, history
      {
        history[historyLen] := bytes[i];
        historyLen := historyLen + 1;
        i := i + 1;
      }
    }

    method AppendUserTurn(text: seq<Byte>)
      requires Valid()
      modifies `historyLen, history
      ensures Valid() && History() == Appended(Appended(Appended(old(History()), USER), text), [NEWLINE])
    {
      hide WellFormed, SafeLen;
      AppendBytes(USER);
      AppendBytes(text);
      AppendBytes([NEWLINE]);
    }

    method AppendToolResult(tool: seq<Byte>, result: seq<Byte>)
      requires Valid()
      modifies `historyLen, history
      ensures Valid()
      ensures History() ==
              Appended(Appended(Appended(Appended(Appended(old(History()), TOOL), tool), TOOL_END), result), [NEWLINE])
    {
      hide WellFormed, SafeLen;
      AppendBytes(TOOL);
      AppendBytes(tool);
      AppendBytes(TOOL_END);
      AppendBytes(result);
      AppendBytes([NEWLINE]);
    }

    method AppendAssistantTurn(text: seq<Byte>)
      requires Valid()
      modifies `historyLen, history
      ensures Valid() && History() == Appended(Appended(Appended(old(History()), ASSISTANT), text), [NEWLINE])
    {
      hide WellFormed, SafeLen;
      AppendBytes(ASSISTANT);
      AppendBytes(text);
      AppendBytes([NEWLINE]);
    }

    /** The budgeted end of the history, leaving out the request now being answered, put behind `idx`; what does
        not fit the buffer is cut. */
    method SuffixExcluding(goal: seq<Byte>, out: array<Byte>, idx: nat, budget: nat) returns (end: nat)
      requires Valid() && idx <= out.Length && out != history
      modifies out
      ensures var view := View(History(), goal, budget);
              && end == (if idx + |view| <= out.Length then idx + |view| else out.Length)
              && out[..end] == old(out[..idx]) + view[..end - idx]
    {
      hide WellFormed;
      var effective := historyLen;
      var expected := |USER| + |goal| + 1;
      ghost var line := USER + goal + [NEWLINE];
      if effective >= expected {
        var tail := history[effective - expected..effective];
        assert tail == History()[effective - expected..];
        assert tail == tail[..|USER|] + tail[|USER|..|tail| - 1] + [tail[|tail| - 1]];
        assert line[..|USER|] == USER && line[|USER|..|line| - 1] == goal;
        if tail[..|USER|] == USER && tail[|tail| - 1] == NEWLINE && tail[|USER|..|tail| - 1] == goal {
          effective := effective - expected;
        }
      }
      var h := history[..effective];
      assert h == WithoutCurrent(History(), goal);
      var start := SafeSuffixStart(h, budget);
      end := Copy(out, idx, h[start..]);
    }
  }

  /** The key/value state as a list of slots; an empty key marks a vacant slot. */
  class SessionState {
    var keys: seq<seq<Byte>>
    var values: seq<seq<Byte>>

    ghost predicate Valid()
      reads this
    {
      && |keys| == |values| == STATE_SLOTS
      && (forall i :: 0 <= i < STATE_SLOTS ==>
            |keys[i]| <= KEY_MAX && |values[i]| <= VALUE_MAX && WellFormed(values[i]))
      && (forall i, j :: 0 <= i < j < STATE_SLOTS && keys[i] != [] ==> keys[i] != keys[j])
    }

    /** The stored mapping. */
    ghost predicate Maps(key: seq<Byte>, value: seq<Byte>)
      requires Valid()
      reads this
    {
      key != [] && exists i :: 0 <= i < STATE_SLOTS && keys[i] == key && values[i] == value
    }

    constructor ()
      ensures Valid() && forall k, v :: !Maps(k, v)
    {
      keys := seq(STATE_SLOTS, _ => []);
      values := seq(STATE_SLOTS, _ => []);
    }

    method Reset()
      modifies this
      ensures Valid() && forall k, v :: !Maps(k, v)
    {
      keys := seq(STATE_SLOTS, _ => []);
      values := seq(STATE_SLOTS, _ => []);
    }

    method FindSlot(key: seq<Byte>) returns (slot: nat)
      requires Valid()
      ensures slot <= STATE_SLOTS
      ensures slot < STATE_SLOTS ==> keys[slot] == key && key != []
      ensures slot == STATE_SLOTS && key != [] ==> key !in keys
    {
      slot := 0;
      while slot < STATE_SLOTS && !(keys[slot] != [] && keys[slot] == key)
        invariant slot <= STATE_SLOTS
        invariant key != [] ==> forall j :: 0 <= j < slot ==> keys[j] != key
      {
        slot := slot + 1;
      }
    }

    /** A vacant slot; when all are taken, the first one. */
    method AllocSlot() returns (slot: nat)
      requires Valid()
      ensures slot < STATE_SLOTS
      ensures keys[slot] == [] || (slot == 0 && [] !in keys)
    {
      slot := 0;
      while slot < STATE_SLOTS
        invariant slot <= STATE_SLOTS
        invariant forall j :: 0 <= j < slot ==> keys[j] != []
      {
        if keys[slot] == [] {
          return;
        }
        slot := slot + 1;
      }
      return 0;
    }

    /** Store the longest well-formed prefix of `value`. A known key is overwritten, a new one takes a
        vacant slot, and when there is none it replaces the first slot's key. */
    method Write(key: seq<Byte>, value: seq<Byte>) returns (ok: bool)
      requires Valid()
      modifies this
      ensures Valid()
      ensures ok <==> key != [] && |key| <= KEY_MAX && |value| <= VALUE_MAX
      ensures !ok ==> keys == old(keys) && values == old(values)
      ensures ok ==> Maps(key, value[..SafeLen(value, VALUE_MAX)])
      ensures ok ==> forall k, v :: k != key && (key in old(keys) || [] in old(keys) || k != old(keys)[0]) ==>
                                      (Maps(k, v) <==> old(Maps(k, v)))
    {
      hide WellFormed, SafeLen;
      if key == [] || |key| > KEY_MAX || |value| > VALUE_MAX {
        return false;
      }
      var slot := FindSlot(key);
      if slot == STATE_SLOTS {
        slot := AllocSlot();
      }
      var n := SafePrefixLen(value, VALUE_MAX);
      keys := keys[slot := key];
      values := values[slot := value[..n]];
      assert keys[slot] == key && values[slot] == value[..n];
      forall k, v | k != key && (key in old(keys) || [] in old(keys) || k != old(keys)[0])
        ensures Maps(k, v) <==> old(Maps(k, v))
      {
        forall i | 0 <= i < STATE_SLOTS ensures keys[i] == k && values[i] == v && k != [] <==>
                                                  old(keys)[i] == k && old(values)[i] == v && k != [] {
        }
      }
      return true;
    }

    /** `read_session_state`: the value last written, cut to the buffer; nothing for an unknown key. */
    method Read(key: seq<Byte>, out: array<Byte>) returns (n: nat)
      requires Valid()
      modifies out
      ensures n <= out.Length
      ensures forall v :: Maps(key, v) ==> n == (if |v| <= out.Length then |v| else out.Length) && out[..n] == v[..n]
      ensures (forall v :: !Maps(key, v)) ==> n == 0
    {
      var slot := FindSlot(key);
      if slot == STATE_SLOTS {
        return 0;
      }
      assert Maps(key, values[slot]);
      n := Copy(out, 0, values[slot]);
    }

    /** What was written is read back. */
    method WriteThenRead(key: seq<Byte>, value: seq<Byte>, out: array<Byte>) returns (n: nat)
      requires Valid() && key != [] && |key| <= KEY_MAX && |value| <= VALUE_MAX <= out.Length
      modifies this, out
      ensures Valid() && n == SafeLen(value, VALUE_MAX) && out[..n] == value[..n]
    {
      hide WellFormed, SafeLen;
      var _ := Write(key, value);
      n := Read(key, out);
    }
  }
}
