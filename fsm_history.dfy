/** The history buffer as a value: the recorded states (`memento`) and its two cursors,
    `statePtr` (the active entry) and `tailPtr` (one past the last redoable entry), with one
    function per engine operation. These functions specify the methods of FsmEngine.FSM and
    carry the properties that relate several operations. */
module FsmHistory {
  import opened FsmConfig

  datatype FsmError =
    | UnknownState(state: StateName)
    | UnknownTransition(state: StateName, event: EventName)

  datatype Outcome = Ok | Fail(error: FsmError)

  datatype History = History(memento: seq<StateName>, statePtr: nat, tailPtr: nat)

  /** Call of a state-changing operation, by target name or by event. */
  datatype Call = ChangeTo(state: StateName) | Fire(event: EventName)

  /** The buffer invariant: the cursors stay inside the recorded entries, entry 0 is the
      initial state, and every recorded entry is a configured state. */
  predicate Inv(c: Config, h: History) {
    && h.statePtr < h.tailPtr <= |h.memento|
    && h.memento[0] == c.initial
    && (forall i :: 0 <= i < |h.memento| ==> h.memento[i] in c.states)
  }

  /** The active state. */
  function Current(h: History): StateName
    requires h.statePtr < |h.memento|
  {
    h.memento[h.statePtr]
  }

  /** The buffer of a freshly constructed engine. */
  function Initial(c: Config): (h: History)
    ensures |h.memento| == 1 && h.statePtr == 0 && h.tailPtr == 1 && Current(h) == c.initial
    ensures c.initial in c.states ==> Inv(c, h)
    ensures !Undo(h).1 && !Redo(h).1
  {
    History([c.initial], 0, 1)
  }

  /** Store `s` at index `i`: an existing entry is overwritten, index |mem| is appended. */
  function Put(mem: seq<StateName>, i: nat, s: StateName): (r: seq<StateName>)
    requires i <= |mem|
    ensures |r| == if i == |mem| then |mem| + 1 else |mem|
    ensures r[i] == s
    ensures forall j :: 0 <= j < |mem| && j != i ==> r[j] == mem[j]
  {
    if i < |mem| then mem[i := s] else mem + [s]
  }

  /** Direct move to `s`. An unknown target fails and changes nothing; a known one is
      recorded right after the active entry, becomes active, and cuts off the redo history. */
  function ChangeState(c: Config, h: History, s: StateName): (r: (History, Outcome))
    requires Inv(c, h)
    ensures Inv(c, r.0)
    ensures r.1 == Ok <==> s in c.states
    ensures r.1 != Ok ==> r.0 == h && r.1 == Fail(UnknownState(s))
    ensures r.1 == Ok ==>
              && Current(r.0) == s
              && r.0.statePtr == h.statePtr + 1
              && r.0.tailPtr == r.0.statePtr + 1
              && r.0.memento[..h.statePtr + 1] == h.memento[..h.statePtr + 1]
    ensures r.1 == Ok ==> !Redo(r.0).1
  {
    if s !in c.states then (h, Fail(UnknownState(s)))
    else
      var p := h.statePtr + 1;
      (History(Put(h.memento, p, s), p, p + 1), Ok)
  }

  /** Move along the active state's transition for `e`. Without one the call fails, yet the
      redo history is still cut off; with one it is exactly a direct move to the target. */
  function Trigger(c: Config, h: History, e: EventName): (r: (History, Outcome))
    requires Inv(c, h)
    ensures Inv(c, r.0)
    ensures e in c.states[Current(h)] ==> r == ChangeState(c, h, c.states[Current(h)][e])
    ensures e !in c.states[Current(h)] ==>
              && r.1 == Fail(UnknownTransition(Current(h), e))
              && r.0.memento == h.memento
              && r.0.statePtr == h.statePtr
              && r.0.tailPtr == h.statePtr + 1
    ensures WellFormed(c) ==> (r.1 == Ok <==> e in c.states[Current(h)])
    ensures WellFormed(c) ==> !Redo(r.0).1
  {
    var transitions := c.states[Current(h)];
    if e !in transitions then (h.(tailPtr := h.statePtr + 1), Fail(UnknownTransition(Current(h), e)))
    else ChangeState(c, h, transitions[e])
  }

  /** Step back one entry; impossible at the first entry. */
  function Undo(h: History): (r: (History, bool))
    ensures r.1 <==> h.statePtr != 0
    ensures r.0.memento == h.memento && r.0.tailPtr == h.tailPtr
    ensures r.1 ==> r.0.statePtr + 1 == h.statePtr
    ensures !r.1 ==> r.0 == h
  {
    if h.statePtr == 0 then (h, false) else (h.(statePtr := h.statePtr - 1), true)
  }

  /** Step forward one entry; possible only while a recorded entry lies ahead. */
  function Redo(h: History): (r: (History, bool))
    ensures r.1 <==> h.statePtr + 1 < h.tailPtr
    ensures r.0.memento == h.memento && r.0.tailPtr == h.tailPtr
    ensures r.1 ==> r.0.statePtr == h.statePtr + 1
    ensures !r.1 ==> r.0 == h
  {
    if h.statePtr >= h.tailPtr - 1 then (h, false) else (h.(statePtr := h.statePtr + 1), true)
  }

  /** Discard all history (both reset and clearHistory): back to entry 0, nothing to redo.
      Entries past the new tail stay stored but are never read again. */
  function Rewind(h: History): (r: History)
    ensures r.memento == h.memento && r.statePtr == 0 && r.tailPtr == 1
    ensures !Undo(r).1 && !Redo(r).1
  {
    h.(statePtr := 0, tailPtr := 1)
  }

  /** Undo, redo and rewind keep the buffer invariant; rewinding lands on the initial state. */
  lemma NavigationKeepsInv(c: Config, h: History)
    requires Inv(c, h)
    ensures Inv(c, Undo(h).0) && Inv(c, Redo(h).0) && Inv(c, Rewind(h))
    ensures Current(Rewind(h)) == c.initial
  {
  }

  /** A successful undo followed at once by a redo restores the buffer. */
  lemma RedoAfterUndo(c: Config, h: History)
    requires Inv(c, h)
    requires Undo(h).1
    ensures Redo(Undo(h).0) == (h, true)
  {
  }

  /** A successful redo followed at once by an undo restores the buffer. */
  lemma UndoAfterRedo(h: History)
    requires Redo(h).1
    ensures Undo(Redo(h).0) == (h, true)
  {
  }

  /** One state-changing call. */
  function Apply(c: Config, h: History, call: Call): (r: (History, Outcome))
    requires Inv(c, h)
    ensures Inv(c, r.0)
    ensures r.1 == Ok ==>
              && r.0.statePtr == h.statePtr + 1
              && r.0.memento[..h.statePtr + 1] == h.memento[..h.statePtr + 1]
    ensures r.1 != Ok ==> r.0.statePtr == h.statePtr && r.0.memento == h.memento
  {
    match call
    case ChangeTo(s) => ChangeState(c, h, s)
    case Fire(e) => Trigger(c, h, e)
  }

  /** Perform `calls` in order; also yields how many of them succeeded. Each success adds one
      entry after the active one; the entries up to the starting position are never touched. */
  function Run(c: Config, h: History, calls: seq<Call>): (r: (History, nat))
    requires Inv(c, h)
    ensures Inv(c, r.0)
    ensures r.1 <= |calls|
    ensures r.0.statePtr == h.statePtr + r.1
    ensures r.0.memento[..h.statePtr + 1] == h.memento[..h.statePtr + 1]
    decreases |calls|
  {
    if calls == [] then (h, 0)
    else
      var (h1, o) := Apply(c, h, calls[0]);
      var (h2, n) := Run(c, h1, calls[1..]);
      assert h2.memento[..h.statePtr + 1] == h2.memento[..h1.statePtr + 1][..h.statePtr + 1];
      (h2, n + if o == Ok then 1 else 0)
  }

  /** Undo `n` times; also yields how many of the undos succeeded. */
  function UndoTimes(h: History, n: nat): (r: (History, nat))
    ensures r.1 == if n <= h.statePtr then n else h.statePtr
    ensures r.0.statePtr == h.statePtr - r.1
    ensures r.0.memento == h.memento && r.0.tailPtr == h.tailPtr
    decreases n
  {
    if n == 0 then (h, 0)
    else
      var (h1, ok) := Undo(h);
      var (h2, k) := UndoTimes(h1, n - 1);
      (h2, k + if ok then 1 else 0)
  }

  /** After a run in which `n` calls succeeded, `n` undos all succeed and return to the state
      that was active before the run. */
  lemma UndoRetracesRun(c: Config, h: History, calls: seq<Call>)
    requires Inv(c, h)
    ensures var (h1, n) := Run(c, h, calls);
            var (h2, k) := UndoTimes(h1, n);
            k == n && h2.statePtr == h.statePtr && Current(h2) == Current(h)
  {
  }

  /** From a fresh engine: undoing every successful call returns to the initial state, and
      one more undo fails. */
  lemma UndoRunFromInitial(c: Config, calls: seq<Call>)
    requires WellFormed(c)
    ensures var (h1, n) := Run(c, Initial(c), calls);
            var (h2, _) := UndoTimes(h1, n);
            Current(h2) == c.initial && !Undo(h2).1
  {
    UndoRetracesRun(c, Initial(c), calls);
  }

  /** A -> B -> C, undo back to B (C is still redoable), then a new move B -> D: C can no
      longer be reached by redo. */
  lemma NewMoveDropsRedo(c: Config, h: History, b: StateName, x: StateName, d: StateName)
    requires Inv(c, h)
    requires b in c.states && x in c.states && d in c.states
    ensures var h1 := ChangeState(c, h, b).0;
            var h2 := ChangeState(c, h1, x).0;
            var (h3, undone) := Undo(h2);
            var h4 := ChangeState(c, h3, d).0;
            && undone && Current(h3) == b && Redo(h3) == (h2, true)
            && Current(h4) == d && !Redo(h4).1
  {
  }

  /** A -> B -> C, undo back to B, then an event B has no transition for: the call fails, B
      stays active, and C can no longer be reached by redo. */
  lemma FailedTriggerDropsRedo(c: Config, h: History, b: StateName, x: StateName, e: EventName)
    requires Inv(c, h)
    requires b in c.states && x in c.states && e !in c.states[b]
    ensures var h1 := ChangeState(c, h, b).0;
            var h2 := ChangeState(c, h1, x).0;
            var (h3, undone) := Undo(h2);
            var (h4, o) := Trigger(c, h3, e);
            && undone && Current(h3) == b && Redo(h3).1
            && o == Fail(UnknownTransition(b, e)) && Current(h4) == b && !Redo(h4).1
  {
  }
}
