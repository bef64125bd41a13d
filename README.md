# Finite-state machine with linear undo/redo — Dafny model

This project models the `FSM` engine class of `src/fsm.js`. The engine is built from a configuration. The configuration holds an initial state and, for each state, a transition table from event names to target states. The engine keeps a history buffer, `memento`, with two cursors. `statePtr` marks the active entry. `tailPtr` is one past the last entry that can still be redone. The engine moves directly to a named state (`changeState`) or along the active state's transition for an event (`trigger`). It steps back and forward through the history (`undo`, `redo`), and collapses the history to the initial state (`reset`, `clearHistory`). It also answers which states have a transition for an event (`getStates`).

The model has three modules:

- `FsmConfig` (`fsm_config.dfy`) holds the configuration. It has the state names in their enumeration order, a map from state name to transition table, and the well-formedness condition the engine relies on. It also holds the filter behind `getStates` and its properties.
- `FsmHistory` (`fsm_history.dfy`) treats the history buffer as a value. It has one function per operation, and its contracts state the buffer invariant `statePtr < tailPtr <= |memento|`, `memento[0] == initial`, together with what each operation does. It also holds lemmas that relate several operations: redo after undo, undoing a whole run of calls, and the redo history being cut off by a new move or by a failed trigger.
- `FsmEngine` (`fsm_engine.dfy`) holds class `FSM`. Its fields `memento` (a `seq`), `statePtr` and `tailPtr` are updated in place, as in the source. Each method keeps `Valid()` and leaves `Snapshot()`, the three fields as a value, equal to the matching `FsmHistory` function applied to the old value. `GetStates` builds its result with a `for` loop, as the source does. Three client methods run the idle/running scenario, its two queries and the unknown-state scenario against the class's contracts.

The two errors the source throws are modelled as the failure result `Fail(UnknownState(s))` from `changeState` and `Fail(UnknownTransition(from, e))` from `trigger`.

## Model

| member | source | states |
|---|---|---|
| FsmHistory.Initial | src/fsm.js:6-13 | The new buffer holds only the initial state: `statePtr == 0`, `tailPtr == 1`, the active state is `initial`, the invariant holds, and neither undo nor redo is possible |
| FsmEngine.FSM.constructor | src/fsm.js:6-13 | The new engine keeps the configuration, is valid, its buffer is `Initial(config)`, and `GetState()` is `initial` |
| FsmEngine.FSM.GetState | src/fsm.js:19-21 | The active state is always a configured state |
| FsmHistory.Put | src/fsm.js:32 | Writing at index `i` stores `s` there and leaves every other entry alone; at `i == |memento|` it appends one entry, otherwise the length is unchanged |
| FsmHistory.ChangeState | src/fsm.js:27-34 | Succeeds exactly when the target is configured. On failure it returns `UnknownState(s)` and the buffer is unchanged. On success the target is active, `statePtr` grows by one, `tailPtr == statePtr + 1` so redo is impossible, the entries up to the old position are untouched, and the invariant is kept |
| FsmEngine.FSM.ChangeState | src/fsm.js:27-34 | The new fields equal `FsmHistory.ChangeState` of the old ones. On failure nothing in the object changes. On success the target is active, `statePtr` grows by one, `tailPtr == statePtr + 1`, and the old prefix is kept |
| FsmHistory.Trigger | src/fsm.js:40-49 | With a transition for the event, the result is exactly `ChangeState` to its target. Without one it fails with `UnknownTransition(active, e)`, leaves `memento` and `statePtr` alone and still sets `tailPtr = statePtr + 1`. With a well-formed configuration it succeeds exactly when the transition exists, and redo is impossible afterwards either way. The invariant is kept |
| FsmEngine.FSM.Trigger | src/fsm.js:40-49 | The new fields equal `FsmHistory.Trigger` of the old ones. It fails exactly when the active state has no transition for the event, and then the active state, `statePtr` and `memento` are unchanged. Afterwards `tailPtr == statePtr + 1` in every case |
| FsmHistory.Rewind | src/fsm.js:54-57 | Reset and clearHistory both keep `memento`, set `statePtr` to 0 and `tailPtr` to 1, and leave neither undo nor redo possible |
| FsmEngine.FSM.Reset | src/fsm.js:54-57 | The new fields equal `Rewind` of the old ones, and the active state is `initial` |
| FsmEngine.FSM.ClearHistory | src/fsm.js:113-116 | The new fields equal `Rewind` of the old ones, and the active state is `initial` |
| FsmConfig.StatesWith | src/fsm.js:65-78 | The reported names are configured names, and there are no more of them than configured names |
| FsmConfig.StatesWithNoEvent | src/fsm.js:69-70 | With no event, every configured name is reported, in configuration order |
| FsmConfig.StatesWithMember | src/fsm.js:71-74 | With an event, a name is reported exactly when it is configured and its transition table defines the event |
| FsmConfig.StatesWithOrdered | src/fsm.js:66-77 | The reported names are an order-preserving subsequence of the configured names |
| FsmEngine.FSM.GetStates | src/fsm.js:65-78 | The loop's result is `StatesWith` of the configuration. With no event it is all names in order; with an event it holds exactly the names whose table defines it, and keeps their order |
| FsmHistory.Undo | src/fsm.js:85-93 | Succeeds exactly when `statePtr != 0`. A failed undo changes nothing. A successful one lowers `statePtr` by one. It never changes `tailPtr` or `memento` |
| FsmEngine.FSM.Undo | src/fsm.js:85-93 | The new fields and the result equal `FsmHistory.Undo` of the old fields. The result is true exactly when the old `statePtr` was not 0 |
| FsmHistory.Redo | src/fsm.js:100-108 | Succeeds exactly when `statePtr < tailPtr - 1`. A failed redo changes nothing. A successful one raises `statePtr` by one. It never changes `tailPtr` or `memento` |
| FsmEngine.FSM.Redo | src/fsm.js:100-108 | The new fields and the result equal `FsmHistory.Redo` of the old fields. The result is true exactly when the old `statePtr < tailPtr - 1` |
| FsmHistory.NavigationKeepsInv | src/fsm.js:54-116 | Undo, redo and reset keep the buffer invariant, and after a reset the active state is `initial` |
| FsmHistory.RedoAfterUndo | src/fsm.js:85-108 | A successful undo followed at once by a redo restores the whole buffer, and the redo succeeds |
| FsmHistory.UndoAfterRedo | src/fsm.js:85-108 | A successful redo followed at once by an undo restores the whole buffer, and the undo succeeds |
| FsmHistory.Apply | src/fsm.js:27-49 | One `changeState` or `trigger` call keeps the invariant. A success advances `statePtr` by one and keeps the entries up to the old position. A failure keeps `statePtr` and `memento` |
| FsmHistory.Run | src/fsm.js:27-49 | After a sequence of calls, `statePtr` has grown by the number of successful calls, entries up to the starting position are untouched, and the invariant holds |
| FsmHistory.UndoTimes | src/fsm.js:85-93 | Undoing `n` times succeeds `min(n, statePtr)` times, lowers `statePtr` by that much, and leaves `memento` and `tailPtr` alone |
| FsmHistory.UndoRetracesRun | src/fsm.js:27-93 | After a run with `n` successful calls, `n` undos all succeed and return to the position and state that were active before the run |
| FsmHistory.UndoRunFromInitial | src/fsm.js:6-93 | From a new engine, undoing every successful call returns to `initial`, and one more undo fails |
| FsmHistory.NewMoveDropsRedo | src/fsm.js:27-34 | After A→B→C and an undo to B, C is still redoable. A new move to D then makes D active and redo impossible |
| FsmHistory.FailedTriggerDropsRedo | src/fsm.js:40-45 | After A→B→C and an undo to B, an event B has no transition for fails with `UnknownTransition(B, e)`. B stays active, and C can no longer be redone |

## Left out

- `module.exports` (src/fsm.js:119) is module plumbing and is not modelled.
- JavaScript object semantics are not modelled. This covers dynamic property lookup, including inherited keys such as `toString` on plain objects. It also covers how `Object.getOwnPropertyNames` orders keys. The configuration is given as an ordered name sequence `names` plus maps. `WellFormed` requires `names` to list every state exactly once.
- `getStates` treats `undefined`, `null` and `""` the same way. The model folds all three into the empty string. `trigger` looks its event up literally, so `""` is an ordinary event name there.
- The engine does not validate its configuration. A missing `initial` state or a state without a `transitions` object makes JavaScript raise a `TypeError` in `trigger` or `getStates`. The model instead states well-formedness as the constructor's precondition: `initial` and every transition target are configured states. Without that precondition, `Trigger` still models the one remaining case: a transition whose target is not configured makes `changeState` fail without cutting off the redo history.
- The bare `new Error` thrown at src/fsm.js:30 and src/fsm.js:44 becomes a closed failure result that carries the offending names. The two error kinds cannot be confused, and no exception types are modelled.
- The configuration is a value fixed at construction. The source keeps a reference to the caller's object, so the caller could mutate it later. That aliasing is not modelled.
- The cursors are unbounded naturals. JavaScript numbers lose precision beyond 2^53, which no realistic history reaches.
