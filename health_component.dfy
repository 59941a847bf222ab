/** `HealthComponent` of src/health-component.js: health that damage wears
    down to zero, and the experience and levels that kills earn. Messages
    the component broadcasts are collected, in order, in an outbox. */
module Health {
  import opened Wrappers
  import MathUtil

  /** Who dealt a blow, as the `attacker` field of `health.damage`. */
  type AttackerId = nat

  /** `_params`: level, experience and the four stats. */
  datatype Stats = Stats(level: int, experience: int, strength: int, wisdomness: int, benchpress: int, curl: int)

  /** A message the component sends. */
  datatype Notice =
    | ExperienceFor(attacker: AttackerId, value: int)  // `health.add-experience`, sent to the attacker
    | Died                                            // `health.death`
    | HealthUpdated(health: real, maxHealth: real)    // `health.update`
    | LevelUpSpawned                                  // `Spawn` on the level-up spawner
    | LevelGained(level: int)                         // `health.levelGained`

  /** Two to the power `e`, for any integer `e`. */
  function Pow2(e: int): (r: real)
    ensures r > 0.0
    decreases if e >= 0 then e else -e
  {
    if e == 0 then 1.0 else if e > 0 then 2.0 * Pow2(e - 1) else Pow2(e + 1) / 2.0
  }

  /** Two to the power `e`, for a natural `e`. */
  function Pow2Nat(e: nat): (r: nat)
    ensures r >= 1
  {
    if e == 0 then 1 else 2 * Pow2Nat(e - 1)
  }

  /** On natural exponents the two powers agree. */
  lemma {:induction false} Pow2OfNat(e: nat)
    ensures Pow2(e) == Pow2Nat(e) as real
  {
    if e > 0 {
      Pow2OfNat(e - 1);
    }
  }

  /** `_ComputeLevelXPRequirement`: `Math.round(2 ** (level - 1) * 100)`. */
  function XPRequirement(level: int): int
  {
    MathUtil.Round(Pow2(level - 1) * 100.0)
  }

  /** From level 1 up the requirement is exactly `100 * 2^(level - 1)`, so
      it doubles with each level. */
  lemma XPRequirementDoubles(level: int)
    requires level >= 1
    ensures XPRequirement(level) == Pow2Nat(level - 1) * 100
    ensures XPRequirement(level + 1) == 2 * XPRequirement(level)
  {
    Pow2OfNat(level - 1);
    Pow2OfNat(level);
    MathUtil.RoundInteger(Pow2Nat(level - 1) * 100);
    MathUtil.RoundInteger(Pow2Nat(level) * 100);
  }

  /** `health.add-experience` with `value`: the experience always grows by
      `value`; when it then reaches the requirement of the current level
      the level and stats rise, the level-up effect spawns and the new
      level is announced. */
  function AfterExperience(p: Stats, value: int): (Stats, seq<Notice>)
  {
    var gained := p.(experience := p.experience + value);
    if gained.experience < XPRequirement(p.level) then (gained, [])
    else
      var up := gained.(level := p.level + 1, strength := p.strength + 1, wisdomness := p.wisdomness + 1,
                        benchpress := p.benchpress + 1, curl := p.curl + 2);
      (up, [LevelUpSpawned, LevelGained(up.level)])
  }

  /** One message raises the level by at most one, exactly when the
      experience reaches the requirement; the experience is never reset,
      and below the requirement nothing but the experience changes. */
  lemma ExperienceLevelsOnce(p: Stats, value: int)
    ensures var (r, out) := AfterExperience(p, value);
      && r.experience == p.experience + value
      && (r.level == p.level + 1 <==> p.experience + value >= XPRequirement(p.level))
      && (r.level == p.level || r.level == p.level + 1)
      && (r.level == p.level ==> r == p.(experience := p.experience + value) && out == [])
      && (r.level == p.level + 1 ==>
            r.strength == p.strength + 1 && r.wisdomness == p.wisdomness + 1 &&
            r.benchpress == p.benchpress + 1 && r.curl == p.curl + 2 &&
            out == [LevelUpSpawned, LevelGained(r.level)])
  {
  }

  /** The stats after a series of `health.add-experience` messages. */
  function AfterExperiences(p: Stats, values: seq<int>): Stats
    decreases |values|
  {
    if values == [] then p else AfterExperiences(AfterExperience(p, values[0]).0, values[1..])
  }

  function Sum(values: seq<int>): int
  {
    if values == [] then 0 else values[0] + Sum(values[1..])
  }

  /** Over a series of messages the experience is the sum of the values
      and the level rises by at most one per message, never falling. */
  lemma {:induction false} ExperiencesAccumulate(p: Stats, values: seq<int>)
    ensures AfterExperiences(p, values).experience == p.experience + Sum(values)
    ensures p.level <= AfterExperiences(p, values).level <= p.level + |values|
    decreases |values|
  {
    if values != [] {
      ExperienceLevelsOnce(p, values[0]);
      ExperiencesAccumulate(AfterExperience(p, values[0]).0, values[1..]);
    }
  }

  /** `Math.max(0.0, health - value)`. */
  function Damaged(health: real, value: real): (r: real)
    ensures r >= 0.0
    ensures r == 0.0 <==> health <= value
    ensures r > 0.0 ==> r == health - value
  {
    if 0.0 > health - value then 0.0 else health - value
  }

  /** What `_OnDamage` sends once health is `health`: at zero, experience
      worth `level * 100` for the attacker, if any, then `health.death`;
      in every case `health.update` last. */
  function DamageNotices(health: real, maxHealth: real, level: int, attacker: Option<AttackerId>): seq<Notice>
  {
    (if health == 0.0 then
       (if attacker.Some? then [ExperienceFor(attacker.value, level * 100)] else []) + [Died]
     else [])
    + [HealthUpdated(health, maxHealth)]
  }

  /** Every blow ends with `health.update`; `health.death` is sent exactly
      when health is zero, after the attacker's reward and before the
      update; a kill by an attacker rewards it with `level * 100`. */
  lemma DamageNoticesOrder(health: real, maxHealth: real, level: int, attacker: Option<AttackerId>)
    ensures var out := DamageNotices(health, maxHealth, level, attacker);
      && |out| >= 1 && out[|out| - 1] == HealthUpdated(health, maxHealth)
      && (Died in out <==> health == 0.0)
      && (health == 0.0 ==> out[|out| - 2] == Died)
      && (health == 0.0 && attacker.Some? ==> out[0] == ExperienceFor(attacker.value, level * 100) && |out| == 3)
      && (attacker.None? || health != 0.0 ==> forall i :: 0 <= i < |out| ==> !out[i].ExperienceFor?)
  {
  }

  /** A blow to an entity already at zero health announces its death
      again. */
  lemma DeadDiesAgain(maxHealth: real, level: int, value: real, attacker: Option<AttackerId>)
    requires value >= 0.0
    ensures Died in DamageNotices(Damaged(0.0, value), maxHealth, level, attacker)
  {
    DamageNoticesOrder(Damaged(0.0, value), maxHealth, level, attacker);
  }

  class HealthComponent {
    /** `_health`. */
    var health: real
    /** `_maxHealth`. */
    var maxHealth: real
    /** `_params`. */
    var params: Stats
    /** The messages sent so far. */
    var outbox: seq<Notice>

    constructor(health: real, maxHealth: real, params: Stats)
      ensures this.health == health && this.maxHealth == maxHealth && this.params == params && outbox == []
    {
      this.health := health;
      this.maxHealth := maxHealth;
      this.params := params;
      outbox := [];
    }

    /** `IsAlive()`. */
    predicate IsAlive()
      reads this
    {
      health > 0.0
    }

    /** `_OnDeath(attacker)`. */
    method OnDeath(attacker: Option<AttackerId>)
      modifies this`outbox
      ensures outbox == old(outbox) + (if attacker.Some? then [ExperienceFor(attacker.value, params.level * 100)] else []) + [Died]
    {
      if attacker.Some? {
        outbox := outbox + [ExperienceFor(attacker.value, params.level * 100)];
      }
      outbox := outbox + [Died];
    }

    /** `_OnDamage(msg)`. */
    method OnDamage(value: real, attacker: Option<AttackerId>)
      modifies this`health, this`outbox
      ensures health == Damaged(old(health), value)
      ensures IsAlive() <==> old(health) > value
      ensures outbox == old(outbox) + DamageNotices(health, maxHealth, params.level, attacker)
    {
      health := if 0.0 > health - value then 0.0 else health - value;
      if health == 0.0 {
        OnDeath(attacker);
      }
      outbox := outbox + [HealthUpdated(health, maxHealth)];
    }

    /** `_OnAddExperience(msg)`. */
    method OnAddExperience(value: int)
      modifies this`params, this`outbox
      ensures params == AfterExperience(old(params), value).0
      ensures outbox == old(outbox) + AfterExperience(old(params), value).1
    {
      params := params.(experience := params.experience + value);
      var required := XPRequirement(params.level);
      if params.experience < required {
        return;
      }
      params := params.(level := params.level + 1, strength := params.strength + 1,
                        wisdomness := params.wisdomness + 1, benchpress := params.benchpress + 1,
                        curl := params.curl + 2);
      outbox := outbox + [LevelUpSpawned];
      outbox := outbox + [LevelGained(params.level)];
    }
  }
}
