/** The finite state machine of src/finite-state-machine.js: a registry
    from state names to state classes and one current state instance.
    The hooks a state implements (`Enter`, `Exit`, `Update`) belong to the
    state classes; here each call of one is recorded in a trace. */
module StateMachine {
  import opened Wrappers

  /** A state class. Its instances report `name` from their `Name`
      getter. */
  datatype Factory = Factory(name: string)

  /** A state instance: the class it was built from and its serial
      number, which tells apart instances built at different times. */
  datatype State = State(factory: Factory, serial: nat)

  /** A call of a state hook, as the machine makes it. */
  datatype Hook =
    | Exited(state: State)
    | Entered(state: State, prev: Option<State>)
    | Updated(state: State, timeElapsed: real)

  /** Why `SetState` can fail: `new this._states[name](this)` on a name
      with no registry entry throws. */
  datatype Failure = UnknownState(name: string)

  /** The machine's observable state: `_states`, `_currentState`, the
      number of instances built so far, and the hook calls made. */
  datatype Machine = Machine(states: map<string, Factory>, current: Option<State>, built: nat, trace: seq<Hook>)

  /** `constructor()`: an empty registry and no current state. */
  const Initial: Machine := Machine(map[], None, 0, [])

  /** `_AddState(name, type)`: store `f` under `name`, overwriting any
      previous entry; nothing else changes. */
  function AfterAddState(m: Machine, name: string, f: Factory): (r: Machine)
    ensures name in r.states && r.states[name] == f
    ensures forall n :: n in m.states && n != name ==> n in r.states && r.states[n] == m.states[n]
    ensures r.states.Keys == m.states.Keys + {name}
    ensures r.current == m.current && r.built == m.built && r.trace == m.trace
  {
    m.(states := m.states[name := f])
  }

  /** Whether the current state already answers to `name`. */
  predicate IsCurrent(m: Machine, name: string)
  {
    m.current.Some? && m.current.value.factory.name == name
  }

  /** The `Exit` call `SetState` makes before switching away from a
      current state. */
  function ExitHooks(m: Machine): seq<Hook>
  {
    if m.current.Some? then [Exited(m.current.value)] else []
  }

  /** `SetState(name)`. When the current state already answers to `name`
      nothing happens. Otherwise the current state, if any, is exited; an
      unregistered name then fails with the machine left on its old
      state; a registered one builds a new instance, makes it current and
      enters it with the previous state. */
  function AfterSetState(m: Machine, name: string): (Machine, Outcome<Failure>)
  {
    if IsCurrent(m, name) then (m, Pass)
    else if name !in m.states then
      (m.(trace := m.trace + ExitHooks(m)), Fail(UnknownState(name)))
    else
      var s := State(m.states[name], m.built);
      (m.(current := Some(s), built := m.built + 1, trace := m.trace + ExitHooks(m) + [Entered(s, m.current)]), Pass)
  }

  /** `Update(timeElapsed, input)`: hand the tick to the current state, if
      there is one. */
  function AfterUpdate(m: Machine, timeElapsed: real): (r: Machine)
    ensures r.states == m.states && r.current == m.current && r.built == m.built
    ensures m.current.None? ==> r == m
    ensures m.current.Some? ==> r.trace == m.trace + [Updated(m.current.value, timeElapsed)]
  {
    if m.current.Some? then m.(trace := m.trace + [Updated(m.current.value, timeElapsed)]) else m
  }

  /** An operation on the machine. */
  datatype Op = AddStateOp(name: string, f: Factory) | SetStateOp(name: string) | UpdateOp(timeElapsed: real)

  function Step(m: Machine, op: Op): Machine
  {
    match op
    case AddStateOp(name, f) => AfterAddState(m, name, f)
    case SetStateOp(name) => AfterSetState(m, name).0
    case UpdateOp(dt) => AfterUpdate(m, dt)
  }

  /** The machine after the operations `ops`, in order. */
  function Run(m: Machine, ops: seq<Op>): Machine
    decreases |ops|
  {
    if ops == [] then m else Run(Step(m, ops[0]), ops[1..])
  }

  /** Asking for the state the machine is already in calls no hook,
      builds nothing and succeeds. */
  lemma SetStateSameIsNoop(m: Machine, name: string)
    requires IsCurrent(m, name)
    ensures AfterSetState(m, name) == (m, Pass)
  {
  }

  /** A switch to a registered state exits the old state before it enters
      the new one; the new instance is built from the registry entry for
      `name`, is current when it is entered, and is entered with the
      previous state, or with none on the first switch. */
  lemma SetStateSwitches(m: Machine, name: string)
    requires !IsCurrent(m, name) && name in m.states
    ensures var (r, o) := AfterSetState(m, name);
      && o == Pass
      && r.current.Some? && r.current.value.factory == m.states[name]
      && r.trace[..|m.trace|] == m.trace
      && r.trace[|r.trace| - 1] == Entered(r.current.value, m.current)
      && (m.current.Some? <==> |r.trace| == |m.trace| + 2)
      && (m.current.Some? ==> r.trace[|m.trace|] == Exited(m.current.value))
      && r.states == m.states
  {
  }

  /** An unregistered name makes `SetState` fail after the old state has
      already been exited; the machine stays on the old state. */
  lemma SetStateUnknownFails(m: Machine, name: string)
    requires !IsCurrent(m, name) && name !in m.states
    ensures var (r, o) := AfterSetState(m, name);
      o == Fail(UnknownState(name)) && r.current == m.current && r.states == m.states &&
      r.trace == m.trace + ExitHooks(m)
  {
  }

  /** Every registry entry is a class whose instances answer to the name
      it is stored under. */
  predicate WellNamed(m: Machine)
  {
    forall n :: n in m.states ==> m.states[n].name == n
  }

  /** With a well-named registry, `SetState` is idempotent: asking again
      for the state just set changes nothing. */
  lemma SetStateIdempotent(m: Machine, name: string)
    requires WellNamed(m)
    ensures var (r, o) := AfterSetState(m, name);
      o == Pass ==> AfterSetState(r, name) == (r, Pass)
  {
  }

  /** Once the machine has a current state it keeps one, whatever
      operations follow. */
  lemma {:induction false} StaysSet(m: Machine, ops: seq<Op>)
    requires m.current.Some?
    ensures Run(m, ops).current.Some?
    decreases |ops|
  {
    if ops != [] {
      StaysSet(Step(m, ops[0]), ops[1..]);
    }
  }

  /** The instance a hook call is made on. */
  function HookState(h: Hook): State
  {
    match h
    case Exited(s) => s
    case Entered(s, _) => s
    case Updated(s, _) => s
  }

  /** Every instance the machine has handed out was numbered below
      `built`: the current state and every state a hook was called on. */
  ghost predicate Numbered(m: Machine)
  {
    && (m.current.Some? ==> m.current.value.serial < m.built)
    && (forall i :: 0 <= i < |m.trace| ==> HookState(m.trace[i]).serial < m.built)
  }

  /** Each operation keeps every instance numbered below `built`. */
  lemma StepNumbered(m: Machine, op: Op)
    requires Numbered(m)
    ensures Numbered(Step(m, op))
  {
    var r := Step(m, op);
    forall i | 0 <= i < |r.trace|
      ensures HookState(r.trace[i]).serial < r.built
    {
      if i >= |m.trace| {
        assert r.built >= m.built;
      }
    }
  }

  /** Any run from the initial machine keeps every instance numbered below
      `built`. */
  lemma {:induction false} RunNumbered(m: Machine, ops: seq<Op>)
    requires Numbered(m)
    ensures Numbered(Run(m, ops))
    decreases |ops|
  {
    if ops != [] {
      StepNumbered(m, ops[0]);
      RunNumbered(Step(m, ops[0]), ops[1..]);
    }
  }

  /** A switch builds a new instance: the state entered is none of the
      states the machine had called a hook on before. */
  lemma SwitchBuildsNewState(m: Machine, name: string)
    requires Numbered(m) && !IsCurrent(m, name) && name in m.states
    ensures var r := AfterSetState(m, name).0;
      r.current.Some? &&
      (forall i :: 0 <= i < |m.trace| ==> HookState(m.trace[i]) != r.current.value) &&
      (m.current.Some? ==> m.current.value != r.current.value)
  {
  }

  /** `FiniteStateMachine`. `built` counts the state instances made so
      far and `trace` records the hook calls; both stand for effects the
      state classes observe. */
  class FiniteStateMachine {
    /** `_states`. */
    var states: map<string, Factory>
    /** `_currentState`. */
    var current: Option<State>
    var built: nat
    var trace: seq<Hook>

    function Snapshot(): Machine
      reads this
    {
      Machine(states, current, built, trace)
    }

    constructor()
      ensures Snapshot() == Initial
    {
      states := map[];
      current := None;
      built := 0;
      trace := [];
    }

    method AddState(name: string, f: Factory)
      modifies this`states
      ensures Snapshot() == AfterAddState(old(Snapshot()), name, f)
    {
      states := states[name := f];
    }

    method SetState(name: string) returns (o: Outcome<Failure>)
      modifies this
      ensures (Snapshot(), o) == AfterSetState(old(Snapshot()), name)
    {
      var prev := current;
      if prev.Some? {
        if prev.value.factory.name == name {
          return Pass;
        }
        trace := trace + [Exited(prev.value)];
      }
      assert trace == old(trace) + ExitHooks(old(Snapshot()));
      if name !in states {
        return Fail(UnknownState(name));
      }
      var s := State(states[name], built);
      built := built + 1;
      current := Some(s);
      trace := trace + [Entered(s, prev)];
      o := Pass;
    }

    method Update(timeElapsed: real)
      modifies this`trace
      ensures Snapshot() == AfterUpdate(old(Snapshot()), timeElapsed)
    {
      if current.Some? {
        trace := trace + [Updated(current.value, timeElapsed)];
      }
    }
  }
}
