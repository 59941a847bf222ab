/** The player's states of src/player-state.js: which state each state's
    `Update` asks the machine to switch to for the held keys, and the
    `finished` listener `AttackState` keeps on its animation mixer. The
    animation cross-fades of the `Enter` hooks are not modelled. */
module PlayerStates {
  import opened Wrappers
  import opened Sequences
  import opened PlayerInput
  import opened StateMachine

  /** The five player state classes. */
  datatype Kind = Death | Attack | Walk | Run | Idle

  /** `get Name()` of each state class. */
  function Name(k: Kind): string
  {
    match k
    case Death => "death"
    case Attack => "attack"
    case Walk => "walk"
    case Run => "run"
    case Idle => "idle"
  }

  /** The state class answering to a name, if any. */
  function FromName(n: string): (k: Option<Kind>)
    ensures k.Some? ==> Name(k.value) == n
  {
    if n == "death" then Some(Death)
    else if n == "attack" then Some(Attack)
    else if n == "walk" then Some(Walk)
    else if n == "run" then Some(Run)
    else if n == "idle" then Some(Idle)
    else None
  }

  /** Every state class is found again from its name, so the names are
      pairwise distinct. */
  lemma NamesRoundTrip(k: Kind, j: Kind)
    ensures FromName(Name(k)) == Some(k)
    ensures Name(k) == Name(j) ==> k == j
  {
    assert FromName(Name(j)) == Some(j);
  }

  /** Forward or backward is held. */
  predicate Moving(keys: Keys)
  {
    keys.forward || keys.backward
  }

  /** The state a state's `Update` asks the machine to switch to for the
      held keys, or `None` when it asks for nothing. `AttackState` and
      `DeathState` never ask; an attack ends when its animation
      finishes. */
  function Request(k: Kind, keys: Keys): (r: Option<Kind>)
    ensures r != Some(k)
    ensures k == Attack || k == Death ==> r == None
  {
    match k
    case Idle =>
      if Moving(keys) then Some(Walk)
      else if keys.space then Some(Attack)
      else None
    case Walk =>
      if Moving(keys) then (if keys.shift then Some(Run) else None)
      else Some(Idle)
    case Run =>
      if Moving(keys) then (if !keys.shift then Some(Walk) else None)
      else Some(Idle)
    case Attack => None
    case Death => None
  }

  /** From idle, movement wins over space: an idle player who moves
      walks, whether or not space is held. */
  lemma MovementBeatsSpace(keys: Keys)
    requires Moving(keys)
    ensures Request(Idle, keys) == Some(Walk)
  {
  }

  /** The states that ask for nothing under the held keys: walking while
      moving without shift, running while moving with shift, standing
      idle while neither moving nor attacking, and attacking or dead. */
  lemma StableStates(k: Kind, keys: Keys)
    ensures Request(k, keys) == None <==>
      match k
      case Walk => Moving(keys) && !keys.shift
      case Run => Moving(keys) && keys.shift
      case Idle => !Moving(keys) && !keys.space
      case Attack => true
      case Death => true
  {
  }

  /** The state after a tick with the held keys. */
  function Next(k: Kind, keys: Keys): Kind
  {
    match Request(k, keys)
    case Some(t) => t
    case None => k
  }

  /** With the keys held steady, the player settles within two ticks:
      the state reached after two ticks asks for nothing more. */
  lemma {:induction false} SettlesWithinTwoTicks(k: Kind, keys: Keys)
    ensures Request(Next(Next(k, keys), keys), keys) == None
  {
    StableStates(Next(Next(k, keys), keys), keys);
  }

  /** The registry the player's machine is built with: each state class
      stored under its own name. */
  predicate PlayerRegistry(m: Machine)
  {
    forall k :: Name(k) in m.states && m.states[Name(k)] == Factory(Name(k))
  }

  /** The kind of the machine's current state, when it is a player
      state. */
  function CurrentKind(m: Machine): Option<Kind>
  {
    if m.current.Some? then FromName(m.current.value.factory.name) else None
  }

  /** One frame of the player's machine: `Update` hands the tick to the
      current state, whose `Update` then calls `SetState` with the state
      it asks for. */
  function Tick(m: Machine, keys: Keys, timeElapsed: real): (Machine, Outcome<Failure>)
  {
    var updated := AfterUpdate(m, timeElapsed);
    match CurrentKind(m)
    case None => (updated, Pass)
    case Some(k) =>
      match Request(k, keys)
      case None => (updated, Pass)
      case Some(t) => AfterSetState(updated, Name(t))
  }

  /** With the player registry, a tick never fails, keeps the registry,
      and leaves the machine in the state its current state asked for;
      when a switch happens the old state is exited and the new one
      entered right after the tick's `Update` call. */
  lemma {:induction false} TickFollowsRequest(m: Machine, keys: Keys, timeElapsed: real)
    requires PlayerRegistry(m) && CurrentKind(m).Some?
    ensures var (r, o) := Tick(m, keys, timeElapsed);
      var k := CurrentKind(m).value;
      && o == Pass
      && r.states == m.states
      && CurrentKind(r) == Some(Next(k, keys))
      && (Request(k, keys).Some? ==>
            r.trace == m.trace + [Updated(m.current.value, timeElapsed), Exited(m.current.value), Entered(r.current.value, m.current)])
  {
    var k := CurrentKind(m).value;
    var updated := AfterUpdate(m, timeElapsed);
    NamesRoundTrip(k, k);
    match Request(k, keys)
    case None =>
    case Some(t) =>
      NamesRoundTrip(t, k);
      assert !IsCurrent(updated, Name(t));
      assert Name(t) in updated.states;
      NamesRoundTrip(t, t);
  }

  /** A player held at steady keys stops switching after two ticks. */
  lemma {:induction false} TicksSettle(m: Machine, keys: Keys, dt1: real, dt2: real, dt3: real)
    requires PlayerRegistry(m) && CurrentKind(m).Some?
    ensures var m1 := Tick(m, keys, dt1).0;
      var m2 := Tick(m1, keys, dt2).0;
      var m3 := Tick(m2, keys, dt3).0;
      m3.current == m2.current && m3.states == m.states
  {
    var m1 := Tick(m, keys, dt1).0;
    TickFollowsRequest(m, keys, dt1);
    var m2 := Tick(m1, keys, dt2).0;
    TickFollowsRequest(m1, keys, dt2);
    TickFollowsRequest(m2, keys, dt3);
    SettlesWithinTwoTicks(CurrentKind(m).value, keys);
  }

  /** `_FinishedCallback`: each `AttackState` instance has its own. */
  type CallbackId = nat

  /** `addEventListener('finished', cb)` of the animation library's event
      dispatcher: append the listener unless it is already there. */
  function AddListener(listeners: seq<CallbackId>, cb: CallbackId): (r: seq<CallbackId>)
    ensures cb in r
    ensures forall x :: x in r <==> x in listeners || x == cb
    ensures NoDup(listeners) ==> NoDup(r)
  {
    if cb in listeners then listeners else listeners + [cb]
  }

  /** A listener added on `Enter` and removed on `Exit` or on the end of
      the animation is gone afterwards, and the other listeners are as
      they were, in their order. */
  lemma {:induction false} ListenerRoundTrip(listeners: seq<CallbackId>, cb: CallbackId)
    requires NoDup(listeners)
    ensures RemoveFirst(AddListener(listeners, cb), cb) == Without(listeners, cb)
    ensures cb !in RemoveFirst(AddListener(listeners, cb), cb)
    ensures cb !in listeners ==> RemoveFirst(AddListener(listeners, cb), cb) == listeners
  {
    var added := AddListener(listeners, cb);
    RemoveFirstIsWithout(added, cb);
    WithoutMembers(added, cb);
    if cb !in listeners {
      WithoutAbsent(listeners, cb);
      WithoutAppendSelf(listeners, cb);
    } else {
      assert added == listeners;
    }
  }

  /** Removing `x` from `s + [x]` leaves what removing it from `s`
      leaves. */
  lemma {:induction false} WithoutAppendSelf<T>(s: seq<T>, x: T)
    ensures Without(s + [x], x) == Without(s, x)
  {
    if s == [] {
      assert [x][1..] == [];
    } else {
      assert (s + [x])[1..] == s[1..] + [x];
      WithoutAppendSelf(s[1..], x);
    }
  }

  /** An animation mixer's `finished` listeners, in the order they were
      added. */
  class Mixer {
    var finished: seq<CallbackId>

    constructor()
      ensures finished == []
    {
      finished := [];
    }
  }

  /** `AttackState`: `mixer` is the mixer of `_action`, null until
      `Enter` binds the attack animation. */
  class AttackState {
    /** `_FinishedCallback`. */
    const callback: CallbackId
    var mixer: Mixer?

    constructor(callback: CallbackId)
      ensures this.callback == callback && mixer == null
    {
      this.callback := callback;
      mixer := null;
    }

    /** `Enter(prevState)`: bind the attack animation and listen for its
        end. */
    method Enter(m: Mixer)
      modifies this`mixer, m`finished
      ensures mixer == m
      ensures m.finished == AddListener(old(m.finished), callback)
    {
      mixer := m;
      m.finished := AddListener(m.finished, callback);
    }

    /** `_Cleanup`: stop listening, when an animation is bound. */
    method Cleanup()
      modifies mixer
      ensures mixer != null ==> mixer.finished == RemoveFirst(old(mixer.finished), callback)
    {
      if mixer != null {
        mixer.finished := RemoveFirst(mixer.finished, callback);
      }
    }

    /** `Exit`. */
    method Exit()
      modifies mixer
      ensures mixer != null ==> mixer.finished == RemoveFirst(old(mixer.finished), callback)
    {
      Cleanup();
    }

    /** `_Finished`: the attack animation has ended; stop listening and
        go back to idle. */
    method Finished(fsm: FiniteStateMachine) returns (o: Outcome<Failure>)
      modifies mixer, fsm
      ensures mixer != null ==> mixer.finished == RemoveFirst(old(mixer.finished), callback)
      ensures (fsm.Snapshot(), o) == AfterSetState(old(fsm.Snapshot()), Name(Idle))
    {
      Cleanup();
      o := fsm.SetState("idle");
    }
  }
}
