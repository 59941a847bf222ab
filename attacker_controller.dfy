/** `AttackController` of src/attacker-controller.js: it follows the
    player's animation clock and, the moment the current action's time
    crosses the hit timing, deals damage to every living entity nearby
    that the player faces. */
module Attacking {
  import opened Wrappers
  import opened Sequences
  import MathUtil

  /** An entity, by identity. */
  type EntityId = nat

  /** `_action` and `_timeElapsed`. */
  datatype Timer = Timer(action: Option<string>, timeElapsed: real)

  /** The constructor's timer: no action, no time. */
  const Start: Timer := Timer(None, 0.0)

  /** The timer's reading an action message is compared from: zero when
      the message starts a different action. */
  function Base(t: Timer, action: string): real
  {
    if t.action != Some(action) then 0.0 else t.timeElapsed
  }

  /** Whether a `player.action` message strikes: the time moves from
      below `timing` to at least `timing`. */
  predicate Strikes(t: Timer, action: string, time: real, timing: real)
  {
    Base(t, action) < timing && time >= timing
  }

  /** The timer after a `player.action` message: the message's action
      and time. */
  function AfterAction(t: Timer, action: string, time: real): (r: Timer)
    ensures r.action == Some(action) && r.timeElapsed == time
  {
    Timer(Some(action), time)
  }

  /** How many of the messages carrying `action` with the times `times`
      strike, starting from timer `t`. */
  function StrikeCount(t: Timer, action: string, times: seq<real>, timing: real): nat
    decreases |times|
  {
    if times == [] then 0
    else
      var first := if Strikes(t, action, times[0], timing) then 1 else 0;
      first + StrikeCount(AfterAction(t, action, times[0]), action, times[1..], timing)
  }

  predicate NonDecreasing(times: seq<real>)
  {
    forall i, j :: 0 <= i < j < |times| ==> times[i] <= times[j]
  }

  /** Once an action's clock has reached the timing, later messages for
      the same action with no earlier times strike no more. */
  lemma {:induction false} NoStrikeAfterTiming(t: Timer, action: string, times: seq<real>, timing: real)
    requires t.action == Some(action) && t.timeElapsed >= timing
    requires forall i :: 0 <= i < |times| ==> times[i] >= t.timeElapsed
    requires NonDecreasing(times)
    ensures StrikeCount(t, action, times, timing) == 0
    decreases |times|
  {
    if times != [] {
      var t' := AfterAction(t, action, times[0]);
      assert forall i :: 0 <= i < |times[1..]| ==> times[1..][i] == times[i + 1];
      NoStrikeAfterTiming(t', action, times[1..], timing);
    }
  }

  /** While one action's clock keeps running forward, it strikes at most
      once, whatever the timer held before. */
  lemma {:induction false} StrikesAtMostOnce(t: Timer, action: string, times: seq<real>, timing: real)
    requires NonDecreasing(times)
    ensures StrikeCount(t, action, times, timing) <= 1
    decreases |times|
  {
    if times != [] {
      var t' := AfterAction(t, action, times[0]);
      var rest := times[1..];
      assert forall i :: 0 <= i < |rest| ==> rest[i] == times[i + 1];
      if Strikes(t, action, times[0], timing) {
        assert forall i :: 0 <= i < |rest| ==> rest[i] >= times[0];
        NoStrikeAfterTiming(t', action, rest, timing);
      } else {
        StrikesAtMostOnce(t', action, rest, timing);
      }
    }
  }

  /** An entry of `FindNearbyEntities(2)`: the entity, and the `_health`
      of its `HealthComponent` when it has one. */
  datatype Nearby = Nearby(entity: EntityId, health: Option<real>)

  /** `_Filter`: not the attacker itself, and a living entity with a
      `HealthComponent`. */
  predicate Attackable(c: Nearby, self: EntityId)
  {
    c.entity != self && c.health.Some? && c.health.value > 0.0
  }

  /** `nearby.filter(_Filter)`. */
  function Targets(nearby: seq<Nearby>, self: EntityId): (r: seq<Nearby>)
    ensures forall c :: c in r <==> c in nearby && Attackable(c, self)
  {
    Filter(nearby, c => Attackable(c, self))
  }

  /** The damage of one blow: the attacker's strength, or, with an
      equipped item whose damage factor is `weapon`, the strength times
      the factor rounded to the nearest integer. */
  function Damage(strength: int, weapon: Option<real>): (d: int)
    ensures weapon.None? ==> d == strength
    ensures weapon.Some? ==> d as real - 0.5 <= strength as real * weapon.value < d as real + 0.5
  {
    if weapon.Some? then MathUtil.Round(strength as real * weapon.value) else strength
  }

  /** A weapon with factor 1 deals the bare strength. */
  lemma UnitWeaponDealsStrength(strength: int)
    ensures Damage(strength, Some(1.0)) == strength
  {
    MathUtil.RoundInteger(strength);
  }

  /** A `health.damage` message sent to `target`. */
  datatype Hit = Hit(target: EntityId, value: int, attacker: EntityId)

  /** The blows dealt to `targets`, in order: one to each target the
      attacker faces. */
  function HitsOf(targets: seq<Nearby>, facing: EntityId -> bool, damage: int, self: EntityId): seq<Hit>
  {
    if targets == [] then []
    else
      var last := targets[|targets| - 1];
      HitsOf(targets[..|targets| - 1], facing, damage, self) +
      (if facing(last.entity) then [Hit(last.entity, damage, self)] else [])
  }

  /** Blows go to exactly the faced entities among the targets, each
      carrying the damage and naming the attacker. */
  lemma {:induction false} HitsOfTargets(targets: seq<Nearby>, facing: EntityId -> bool, damage: int, self: EntityId)
    ensures forall h :: h in HitsOf(targets, facing, damage, self) <==>
      h.value == damage && h.attacker == self && facing(h.target) &&
      exists c :: c in targets && c.entity == h.target
  {
    if targets != [] {
      var init := targets[..|targets| - 1];
      var last := targets[|targets| - 1];
      HitsOfTargets(init, facing, damage, self);
      assert targets == init + [last];
      forall h: Hit | h.value == damage && h.attacker == self && facing(h.target) && exists c :: c in targets && c.entity == h.target
        ensures h in HitsOf(targets, facing, damage, self)
      {
        var c :| c in targets && c.entity == h.target;
        if c != last {
          assert c in init;
        }
      }
    }
  }

  /** Nobody is hit who is not attackable: never the attacker itself,
      never an entity without health, never a dead one. */
  lemma OnlyAttackableHit(nearby: seq<Nearby>, facing: EntityId -> bool, damage: int, self: EntityId, h: Hit)
    requires h in HitsOf(Targets(nearby, self), facing, damage, self)
    ensures h.target != self
    ensures exists c :: c in nearby && c.entity == h.target && Attackable(c, self)
  {
    HitsOfTargets(Targets(nearby, self), facing, damage, self);
  }

  class AttackController {
    /** `_params.timing`. */
    const timing: real
    var timer: Timer

    constructor(timing: real)
      ensures this.timing == timing && timer == Start
    {
      this.timing := timing;
      timer := Start;
    }

    /** `_OnAnimAction(m)`. The components the handler consults are
        parameters: `nearby` is what the grid controller reports,
        `strength` the attacker's, `weapon` the damage factor of the
        equipped item when the inventory finds it, and `facing` the
        test on the direction to a target. The returned blows are the
        `health.damage` messages sent, in order. */
    method OnAnimAction(action: string, time: real, self: EntityId, nearby: seq<Nearby>,
                        strength: int, weapon: Option<real>, facing: EntityId -> bool)
      returns (hits: seq<Hit>)
      modifies this`timer
      ensures timer == AfterAction(old(timer), action, time)
      ensures hits == if Strikes(old(timer), action, time, timing)
                      then HitsOf(Targets(nearby, self), facing, Damage(strength, weapon), self)
                      else []
    {
      if timer.action != Some(action) {
        timer := Timer(Some(action), 0.0);
      }
      var oldTiming := timer.timeElapsed;
      assert oldTiming == Base(old(timer), action);
      timer := timer.(timeElapsed := time);
      hits := [];
      if oldTiming < timing && timer.timeElapsed >= timing {
        var attackable := Targets(nearby, self);
        var damage := strength;
        if weapon.Some? {
          damage := MathUtil.Round(damage as real * weapon.value);
        }
        assert damage == Damage(strength, weapon);
        var i := 0;
        while i < |attackable|
          invariant 0 <= i <= |attackable|
          invariant hits == HitsOf(attackable[..i], facing, damage, self)
        {
          var target := attackable[i].entity;
          assert attackable[..i + 1][..i] == attackable[..i];
          if facing(target) {
            hits := hits + [Hit(target, damage, self)];
          }
          i := i + 1;
        }
        assert attackable[..i] == attackable;
      }
    }
  }
}
