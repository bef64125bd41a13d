/** The machine's configuration: the initial state, the configured state names in their
    enumeration order, and each state's transition table (event name to target state).
    The configuration is supplied at construction and never changes afterwards. */
module FsmConfig {

  type StateName = string
  type EventName = string

  /** A state's transition table; an event with no entry has no transition. */
  type Transitions = map<EventName, StateName>

  datatype Config = Config(initial: StateName, names: seq<StateName>, states: map<StateName, Transitions>)

  predicate Distinct(s: seq<StateName>) {
    forall i, j :: 0 <= i < j < |s| ==> s[i] != s[j]
  }

  /** What the engine relies on without checking: `names` lists every key of `states` exactly
      once, and the initial state and every transition target are configured states. */
  predicate WellFormed(c: Config) {
    && Distinct(c.names)
    && (forall i :: 0 <= i < |c.names| ==> c.names[i] in c.states)
    && (forall s :: s in c.states ==> s in c.names)
    && c.initial in c.states
    && (forall s, e :: s in c.states && e in c.states[s] ==> c.states[s][e] in c.states)
  }

  /** State `name` has a transition for `event`. */
  predicate Defines(states: map<StateName, Transitions>, name: StateName, event: EventName) {
    name in states && event in states[name]
  }

  /** The names that a query for `event` reports: all of them when the event is absent (""),
      otherwise those whose transition table defines the event, in the order of `names`. */
  function StatesWith(names: seq<StateName>, states: map<StateName, Transitions>, event: EventName): (r: seq<StateName>)
    ensures |r| <= |names|
    ensures forall x :: x in r ==> x in names
  {
    if names == [] then []
    else
      var rest := StatesWith(names[..|names| - 1], states, event);
      var last := names[|names| - 1];
      if event == "" || Defines(states, last, event) then rest + [last] else rest
  }

  /** `a` is `b` with some elements left out, the rest kept in order. */
  predicate IsSubsequence(a: seq<StateName>, b: seq<StateName>)
    decreases |b|
  {
    if b == [] then a == []
    else
      || IsSubsequence(a, b[..|b| - 1])
      || (a != [] && a[|a| - 1] == b[|b| - 1] && IsSubsequence(a[..|a| - 1], b[..|b| - 1]))
  }

  /** With no event, every configured name is reported, in configuration order. */
  lemma {:induction false} StatesWithNoEvent(names: seq<StateName>, states: map<StateName, Transitions>)
    ensures StatesWith(names, states, "") == names
  {
    if names != [] {
      StatesWithNoEvent(names[..|names| - 1], states);
      assert names[..|names| - 1] + [names[|names| - 1]] == names;
    }
  }

  /** With an event, a name is reported exactly when its table defines the event. */
  lemma {:induction false} StatesWithMember(names: seq<StateName>, states: map<StateName, Transitions>, event: EventName, x: StateName)
    requires event != ""
    ensures x in StatesWith(names, states, event) <==> x in names && Defines(states, x, event)
  {
    if names != [] {
      var init := names[..|names| - 1];
      StatesWithMember(init, states, event, x);
      assert names == init + [names[|names| - 1]];
    }
  }

  /** The reported names keep the configuration order. */
  lemma {:induction false} StatesWithOrdered(names: seq<StateName>, states: map<StateName, Transitions>, event: EventName)
    ensures IsSubsequence(StatesWith(names, states, event), names)
  {
    if names != [] {
      var init := names[..|names| - 1];
      var rest := StatesWith(init, states, event);
      StatesWithOrdered(init, states, event);
      var r := StatesWith(names, states, event);
      if r != rest {
        assert r[..|r| - 1] == rest;
      }
    }
  }
}
