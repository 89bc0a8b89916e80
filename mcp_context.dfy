/** `MCPContextManager`: an in-memory conversation context with an append-only
    turn history, a key/value system state, a set of active tool names and two
    timestamps. Wall-clock readings are an abstract counter `clock` that
    `datetime.now()` reads and advances. */
module McpContext {
  import opened Optional

  /** One conversation turn; `timestamp` is the clock reading when it was added. */
  datatype Turn<V> = Turn(role: string, content: string, timestamp: nat, metadata: map<string, V>)

  /** Python's `s[start:]`: a negative start counts from the end, and the start is
      clamped to `0..len(s)`. */
  function PyTail<T>(s: seq<T>, start: int): (r: seq<T>)
    ensures |r| <= |s| && r == s[|s| - |r|..]
    ensures start >= 0 ==> |r| == if start >= |s| then 0 else |s| - start
    ensures start < 0 ==> |r| == if -start >= |s| then |s| else -start
  {
    if start >= 0 then
      if start >= |s| then [] else s[start..]
    else
      if -start >= |s| then s else s[|s| + start..]
  }

  /** `history[-window_size:]`. */
  function ContextWindow<T>(history: seq<T>, windowSize: int): (w: seq<T>)
    ensures windowSize >= 1 ==> |w| == (if windowSize <= |history| then windowSize else |history|)
    ensures windowSize >= 1 ==> w == history[|history| - |w|..]
    ensures windowSize == 0 ==> w == history
    ensures windowSize < 0 ==> w == (if -windowSize >= |history| then [] else history[-windowSize..])
  {
    PyTail(history, -windowSize)
  }

  /** The window of `n >= 1` turns right after a turn is added: the newest turn, after
      the previous window of `n - 1`. For `n == 1` the previous part is empty, not the
      whole history that a window of 0 would give. */
  lemma WindowAfterAppend<T>(history: seq<T>, turn: T, n: int)
    requires n >= 1
    ensures ContextWindow(history + [turn], n) == (if n == 1 then [] else ContextWindow(history, n - 1)) + [turn]
  {
    var h' := history + [turn];
    var w := ContextWindow(h', n);
    if n == 1 {
      assert w == h'[|h'| - 1..];
    } else {
      var v := ContextWindow(history, n - 1);
      assert |w| == |v| + 1;
      assert w == h'[|h'| - |w|..];
      assert v == history[|history| - |v|..];
      assert h'[|h'| - |w|..] == history[|history| - |v|..] + [turn];
    }
  }

  /** A window at least as large as the history is the whole history. */
  lemma WideWindowIsWholeHistory<T>(history: seq<T>, n: int)
    requires n >= |history|
    ensures ContextWindow(history, n) == history
  {
    if n >= 1 {
      var w := ContextWindow(history, n);
      assert w == history[0..];
    }
  }

  class ContextManager<V> {
    var history: seq<Turn<V>>
    var systemState: map<string, V>
    var activeTools: set<string>
    var createdAt: nat
    var lastUpdated: nat
    /** The next reading `datetime.now()` will give. */
    var clock: nat

    /** Timestamps follow the clock: creation, then every turn in the order added,
        then the last update, all before the next reading. */
    ghost predicate Valid()
      reads this
    {
      && createdAt < lastUpdated < clock
      && (forall i :: 0 <= i < |history| ==> createdAt < history[i].timestamp < lastUpdated)
      && (forall i, j :: 0 <= i < j < |history| ==> history[i].timestamp < history[j].timestamp)
    }

    /** Empty history, state and tools; both timestamps read from the clock in turn. */
    constructor()
      ensures history == [] && systemState == map[] && activeTools == {}
      ensures createdAt == 0 && lastUpdated == 1 && clock == 2
      ensures Valid()
    {
      history := [];
      systemState := map[];
      activeTools := {};
      createdAt := 0;
      lastUpdated := 1;
      clock := 2;
    }

    /** `_update_timestamp`: `last_updated` takes a fresh clock reading. */
    method UpdateTimestamp()
      modifies this
      ensures lastUpdated == old(clock) && clock == old(clock) + 1
      ensures history == old(history) && systemState == old(systemState)
      ensures activeTools == old(activeTools) && createdAt == old(createdAt)
    {
      lastUpdated := clock;
      clock := clock + 1;
    }

    /** `add_conversation_turn`: appends exactly one turn with the given role and
        content, stamped with a fresh clock reading, metadata `{}` when none is given;
        earlier turns, state, tools and `created_at` are untouched. */
    method AddConversationTurn(role: string, content: string, metadata: Option<map<string, V>>)
      requires Valid()
      modifies this
      ensures Valid()
      ensures history == old(history) + [Turn(role, content, old(clock),
                                              if metadata.Some? then metadata.value else map[])]
      ensures systemState == old(systemState) && activeTools == old(activeTools)
      ensures createdAt == old(createdAt) && lastUpdated == old(clock) + 1 && clock == old(clock) + 2
    {
      var turn := Turn(role, content, clock, if metadata.Some? then metadata.value else map[]);
      clock := clock + 1;
      history := history + [turn];
      UpdateTimestamp();
    }

    /** `update_system_state`: `state[key] := value`; every other key, the history and
        the tools are untouched. */
    method UpdateSystemState(key: string, value: V)
      requires Valid()
      modifies this
      ensures Valid()
      ensures systemState == old(systemState)[key := value]
      ensures forall k :: k in old(systemState) && k != key ==> k in systemState && systemState[k] == old(systemState)[k]
      ensures history == old(history) && activeTools == old(activeTools)
      ensures createdAt == old(createdAt) && lastUpdated == old(clock) && clock == old(clock) + 1
    {
      systemState := systemState[key := value];
      UpdateTimestamp();
    }

    /** `register_tool`: adds the name; registering a registered tool leaves the set as it is. */
    method RegisterTool(toolName: string)
      requires Valid()
      modifies this
      ensures Valid()
      ensures activeTools == old(activeTools) + {toolName}
      ensures toolName in old(activeTools) ==> activeTools == old(activeTools)
      ensures history == old(history) && systemState == old(systemState)
      ensures createdAt == old(createdAt) && lastUpdated == old(clock) && clock == old(clock) + 1
    {
      activeTools := activeTools + {toolName};
      UpdateTimestamp();
    }

    /** `unregister_tool` (`set.discard`): removes the name; an absent name is a silent
        no-op on the set (the timestamp is still refreshed). */
    method UnregisterTool(toolName: string)
      requires Valid()
      modifies this
      ensures Valid()
      ensures activeTools == old(activeTools) - {toolName}
      ensures toolName !in old(activeTools) ==> activeTools == old(activeTools)
      ensures history == old(history) && systemState == old(systemState)
      ensures createdAt == old(createdAt) && lastUpdated == old(clock) && clock == old(clock) + 1
    {
      activeTools := activeTools - {toolName};
      UpdateTimestamp();
    }

    /** `get_context_window(window_size)`; the window size defaults to 10. */
    function GetContextWindow(windowSize: int := 10): (w: seq<Turn<V>>)
      reads this
      ensures windowSize >= 1 ==> |w| == (if windowSize <= |history| then windowSize else |history|)
      ensures windowSize >= 1 ==> w == history[|history| - |w|..]
      ensures windowSize == 0 ==> w == history
      ensures windowSize < 0 ==> w == (if -windowSize >= |history| then [] else history[-windowSize..])
    {
      ContextWindow(history, windowSize)
    }

    /** `get_system_state`: the state by value, so later updates do not reach it. */
    function GetSystemState(): (state: map<string, V>)
      reads this
      ensures forall k :: k in state <==> k in systemState
      ensures forall k :: k in state ==> state[k] == systemState[k]
    {
      systemState
    }

    /** `get_active_tools`: the tool set by value. */
    function GetActiveTools(): (tools: set<string>)
      reads this
      ensures forall t :: t in tools <==> t in activeTools
    {
      activeTools
    }

    /** `clear_context`: history, state and tools emptied; `created_at` kept and
        `last_updated` refreshed. */
    method ClearContext()
      requires Valid()
      modifies this
      ensures Valid()
      ensures history == [] && systemState == map[] && activeTools == {}
      ensures createdAt == old(createdAt) && lastUpdated == old(clock) && clock == old(clock) + 1
    {
      history := [];
      systemState := map[];
      activeTools := {};
      lastUpdated := clock;
      clock := clock + 1;
    }
  }
}
