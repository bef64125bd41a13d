/** The engine object: a fixed configuration and a history buffer that its methods update in
    place. Each state-changing method leaves the buffer exactly as the matching function of
    FsmHistory prescribes for the buffer it started from. */
module FsmEngine {
  import opened FsmConfig
  import opened FsmHistory

  class FSM {
    const config: Config
    var memento: seq<StateName>
    var statePtr: nat
    var tailPtr: nat

    /** The buffer as a value. */
    function Snapshot(): History
      reads this
    {
      History(memento, statePtr, tailPtr)
    }

    ghost predicate Valid()
      reads this
    {
      WellFormed(config) && Inv(config, Snapshot())
    }

    /** A new engine is at the initial state with nothing to undo or redo. */
    constructor (config: Config)
      requires WellFormed(config)
      ensures Valid() && this.config == config
      ensures Snapshot() == Initial(config)
      ensures GetState() == config.initial && statePtr == 0 && tailPtr == 1
    {
      this.config := config;
      memento := [config.initial];
      tailPtr := 1;
      statePtr := 0;
    }

    /** The active state; always a configured one. */
    function GetState(): (s: StateName)
      requires Valid()
      reads this
      ensures s in config.states
    {
      memento[statePtr]
    }

    method ChangeState(state: StateName) returns (r: Outcome)
      requires Valid()
      modifies this
      ensures Valid()
      ensures (Snapshot(), r) == FsmHistory.ChangeState(config, old(Snapshot()), state)
      ensures r.Fail? <==> state !in config.states
      ensures r.Fail? ==> unchanged(this)
      ensures r.Ok? ==> GetState() == state && statePtr == old(statePtr) + 1 && tailPtr == statePtr + 1
      ensures r.Ok? ==> memento[..old(statePtr) + 1] == old(memento[..statePtr + 1])
    {
      if state !in config.states {
        return Fail(UnknownState(state));
      }
      statePtr := statePtr + 1;
      if statePtr < |memento| {
        memento := memento[statePtr := state];
      } else {
        memento := memento + [state];
      }
      tailPtr := statePtr + 1;
      r := Ok;
    }

    method Trigger(event: EventName) returns (r: Outcome)
      requires Valid()
      modifies this
      ensures Valid()
      ensures (Snapshot(), r) == FsmHistory.Trigger(config, old(Snapshot()), event)
      ensures r.Fail? <==> event !in config.states[old(GetState())]
      ensures r.Fail? ==> GetState() == old(GetState()) && statePtr == old(statePtr) && memento == old(memento)
      ensures tailPtr == statePtr + 1
    {
      var transitions := config.states[GetState()];
      if event !in transitions {
        tailPtr := statePtr + 1;
        return Fail(UnknownTransition(GetState(), event));
      }
      r := ChangeState(transitions[event]);
    }

    method Reset()
      requires Valid()
      modifies this`statePtr, this`tailPtr
      ensures Valid()
      ensures Snapshot() == Rewind(old(Snapshot()))
      ensures GetState() == config.initial
    {
      tailPtr := 1;
      statePtr := 0;
    }

    /** The configured states that have a transition for `event` ("" for no event: all of
        them), in configuration order. */
    method GetStates(event: EventName) returns (result: seq<StateName>)
      requires Valid()
      ensures result == StatesWith(config.names, config.states, event)
      ensures event == "" ==> result == config.names
      ensures event != "" ==> forall x :: x in result <==> x in config.names && event in config.states[x]
      ensures IsSubsequence(result, config.names)
    {
      var names := config.names;
      result := [];
      for i := 0 to |names|
        invariant result == StatesWith(names[..i], config.states, event)
      {
        assert names[..i + 1][..i] == names[..i];
        if event == "" {
          result := result + [names[i]];
        } else {
          if event in config.states[names[i]] {
            result := result + [names[i]];
          }
        }
      }
      assert names[..|names|] == names;
      StatesWithNoEvent(names, config.states);
      StatesWithOrdered(names, config.states, event);
      if event != "" {
        forall x
          ensures x in result <==> x in names && event in config.states[x]
        {
          StatesWithMember(names, config.states, event, x);
        }
      }
    }

    method Undo() returns (ok: bool)
      requires Valid()
      modifies this`statePtr
      ensures Valid()
      ensures (Snapshot(), ok) == FsmHistory.Undo(old(Snapshot()))
      ensures ok <==> old(statePtr) != 0
    {
      if statePtr == 0 {
        return false;
      }
      statePtr := statePtr - 1;
      ok := true;
    }

    method Redo() returns (ok: bool)
      requires Valid()
      modifies this`statePtr
      ensures Valid()
      ensures (Snapshot(), ok) == FsmHistory.Redo(old(Snapshot()))
      ensures ok <==> old(statePtr) < old(tailPtr) - 1
    {
      if statePtr >= tailPtr - 1 {
        return false;
      }
      statePtr := statePtr + 1;
      ok := true;
    }

    method ClearHistory()
      requires Valid()
      modifies this`statePtr, this`tailPtr
      ensures Valid()
      ensures Snapshot() == Rewind(old(Snapshot()))
      ensures GetState() == config.initial
    {
      tailPtr := 1;
      statePtr := 0;
    }
  }

  /** The idle/running configuration used by the scenarios below. */
  const IDLE_RUNNING: Config :=
    Config("idle", ["idle", "running"], map["idle" := map["start" := "running"], "running" := map["stop" := "idle"]])

  lemma IdleRunningWellFormed()
    ensures WellFormed(IDLE_RUNNING)
  {
  }

  /** Start, stop, then undo back to running. */
  method IdleRunningScenario()
  {
    IdleRunningWellFormed();
    var fsm := new FSM(IDLE_RUNNING);
    var r := fsm.Trigger("start");
    assert r == Ok && fsm.GetState() == "running";
    r := fsm.Trigger("stop");
    assert r == Ok && fsm.GetState() == "idle";
    var ok := fsm.Undo();
    assert ok && fsm.GetState() == "running";
  }

  /** Only running can stop; with no event both states are reported, in order. */
  method IdleRunningQueries()
  {
    IdleRunningWellFormed();
    var fsm := new FSM(IDLE_RUNNING);
    var stoppable := fsm.GetStates("stop");
    assert "stop" !in IDLE_RUNNING.states["idle"];
    assert "running" in stoppable && "idle" !in stoppable;
    var all := fsm.GetStates("");
    assert all == ["idle", "running"];
  }

  /** A move to a state that is not configured fails and leaves the active state alone. */
  method UnknownStateScenario()
  {
    IdleRunningWellFormed();
    var fsm := new FSM(IDLE_RUNNING);
    var r := fsm.Trigger("start");
    assert "nonexistent" !in fsm.config.states;
    r := fsm.ChangeState("nonexistent");
    assert r == Fail(UnknownState("nonexistent")) && fsm.GetState() == "running";
  }
}
