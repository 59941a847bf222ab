/** The entity manager of src/entity-manager.js: a name table, the ordered
    list of entities that receive updates, and a counter for generated
    names. */
module EntityManagement {
  import opened Wrappers
  import opened Sequences
  import opened Entities

  /** The character of decimal digit `d`. */
  function DigitChar(d: nat): (c: char)
    requires d < 10
    ensures '0' <= c <= '9'
  {
    ('0' as int + d) as char
  }

  predicate IsDigits(s: string)
  {
    forall i :: 0 <= i < |s| ==> '0' <= s[i] <= '9'
  }

  /** JavaScript's `String(n)` for a natural number: its decimal digits,
      most significant first, without leading zeros. */
  function Decimal(n: nat): (s: string)
    ensures |s| >= 1 && IsDigits(s)
    ensures |s| > 1 ==> s[0] != '0'
  {
    if n < 10 then [DigitChar(n)] else Decimal(n / 10) + [DigitChar(n % 10)]
  }

  /** The number a string of decimal digits denotes. */
  function ParseDecimal(s: string): nat
    requires IsDigits(s)
  {
    if s == [] then 0 else ParseDecimal(s[..|s| - 1]) * 10 + (s[|s| - 1] as int - '0' as int)
  }

  /** Parsing undoes `Decimal`. */
  lemma {:induction false} ParseDecimalOfDecimal(n: nat)
    ensures ParseDecimal(Decimal(n)) == n
  {
    if n >= 10 {
      var s := Decimal(n);
      assert s[..|s| - 1] == Decimal(n / 10);
      ParseDecimalOfDecimal(n / 10);
    }
  }

  /** Distinct numbers have distinct decimal strings. */
  lemma DecimalInjective(a: nat, b: nat)
    requires Decimal(a) == Decimal(b)
    ensures a == b
  {
    ParseDecimalOfDecimal(a);
    ParseDecimalOfDecimal(b);
  }

  const NamePrefix: string := "__name__"

  /** The name `_GenerateName` returns once the counter has reached `id`. */
  function GeneratedName(id: nat): string
  {
    NamePrefix + Decimal(id)
  }

  /** Generated names for distinct counter values are distinct. */
  lemma GeneratedNamesDistinct(a: nat, b: nat)
    requires a != b
    ensures GeneratedName(a) != GeneratedName(b)
  {
    if GeneratedName(a) == GeneratedName(b) {
      assert GeneratedName(a)[|NamePrefix|..] == Decimal(a);
      assert GeneratedName(b)[|NamePrefix|..] == Decimal(b);
      DecimalInjective(a, b);
    }
  }

  /** JavaScript's `!n` for the optional name argument of `Add`: no name,
      or the empty string. */
  predicate NoName(n: Option<string>)
  {
    n.None? || n.value == ""
  }

  /** `x` appended to itself `k` times. */
  function Repeat<T>(x: seq<T>, k: nat): seq<T>
  {
    if k == 0 then [] else Repeat(x, k - 1) + x
  }

  /** One more copy of `x` appends `x`. */
  lemma RepeatSnoc<T>(x: seq<T>, k: nat)
    ensures Repeat(x, k + 1) == Repeat(x, k) + x
  {
  }

  /** How often `e` occurs in `s`. */
  function Count<T(==)>(s: seq<T>, e: T): nat
  {
    if s == [] then 0 else Count(s[..|s| - 1], e) + (if s[|s| - 1] == e then 1 else 0)
  }

  /** `Count` is the multiplicity in the multiset of `s`. */
  lemma {:induction false} CountIsMultiplicity<T>(s: seq<T>, e: T)
    ensures Count(s, e) == multiset(s)[e]
  {
    if s != [] {
      CountIsMultiplicity(s[..|s| - 1], e);
      assert s == s[..|s| - 1] + [s[|s| - 1]];
    }
  }

  /** Extending a prefix by one element counts that element once more
      and every other element as before. */
  lemma CountStep<T>(s: seq<T>, i: nat, e: T)
    requires i < |s|
    ensures Count(s[..i + 1], e) == Count(s[..i], e) + (if e == s[i] then 1 else 0)
  {
    assert s[..i + 1][..i] == s[..i];
  }

  class EntityManager {
    /** `_ids`: the counter behind generated names. */
    var ids: nat
    /** `_entitiesMap`: entities by name. */
    var entitiesMap: map<string, Entity>
    /** `_entities`: the entities `Update` visits, in order. */
    var entities: seq<Entity>
    /** The entities `Update` has visited so far, in visiting order. */
    ghost var updated: seq<Entity>

    constructor()
      ensures ids == 0 && entitiesMap == map[] && entities == [] && updated == []
    {
      ids := 0;
      entitiesMap := map[];
      entities := [];
      updated := [];
    }

    /** `_GenerateName`: bump the counter and name the entity after it. */
    method GenerateName() returns (n: string)
      modifies this`ids
      ensures ids == old(ids) + 1
      ensures n == GeneratedName(ids)
    {
      ids := ids + 1;
      n := NamePrefix + Decimal(ids);
    }

    /** `Get(n)`: the entity stored under `n`, if any. */
    function Get(n: string): (e: Option<Entity>)
      reads this
      ensures e.Some? <==> n in entitiesMap
      ensures e.Some? ==> e.value == entitiesMap[n]
    {
      if n in entitiesMap then Some(entitiesMap[n]) else None
    }

    /** `Filter(cb)`: the listed entities that satisfy `cb`, in list
        order. */
    function Filter(cb: Entity -> bool): (r: seq<Entity>)
      reads this
      ensures |r| <= |entities|
      ensures forall i :: 0 <= i < |r| ==> r[i] in entities && cb(r[i])
      ensures forall i :: 0 <= i < |entities| && cb(entities[i]) ==> entities[i] in r
    {
      Sequences.Filter(entities, cb)
    }

    /** `Add(e, n)`: store `e` under `n`, or under a freshly generated name
        when `n` is missing or empty, append it to the update list and
        give it that name. An existing entry under the same name is
        overwritten; the entity it held stays in the update list. */
    method Add(e: Entity, n: Option<string>)
      modifies this, e`name
      ensures ids == if NoName(n) then old(ids) + 1 else old(ids)
      ensures var name := if NoName(n) then GeneratedName(ids) else n.value;
        entitiesMap == old(entitiesMap)[name := e] && e.name == Some(name)
      ensures entities == old(entities) + [e]
      ensures updated == old(updated)
    {
      var name: string;
      if n.None? || n.value == "" {
        name := GenerateName();
      } else {
        name := n.value;
      }
      entitiesMap := entitiesMap[name := e];
      entities := entities + [e];
      e.SetName(name);
    }

    /** `SetActive(e, b)`: cut the first occurrence of `e` out of the
        update list, whatever `b` says; nothing happens when `e` is not
        listed. The name table is left alone. */
    method SetActive(e: Entity, b: bool)
      modifies this`entities
      ensures entities == RemoveFirst(old(entities), e)
    {
      var i := IndexOf(entities, e);
      if i < 0 {
        return;
      }
      entities := entities[..i] + entities[i + 1..];
    }

    /** `Update(timeElapsed)`: update every listed entity, in list order:
        the visit log grows by the list itself. An entity listed `k` times
        records its components' update hooks `k` times over. */
    method Update(timeElapsed: real)
      modifies this`updated, (set e | e in entities)`trace
      ensures updated == old(updated) + entities
      ensures forall e :: e in entities ==>
        e.componentOrder == old(e.componentOrder) &&
        e.trace == old(e.trace) + Repeat(UpdateEvents(e.componentOrder, timeElapsed), multiset(entities)[e])
    {
      var list := entities;
      var i := 0;
      while i < |list|
        invariant 0 <= i <= |list|
        invariant updated == old(updated) + list[..i]
        invariant forall e :: e in list ==>
          e.trace == old(e.trace) + Repeat(UpdateEvents(e.componentOrder, timeElapsed), Count(list[..i], e))
      {
        var cur := list[i];
        label Before:
        cur.Update(timeElapsed);
        updated := updated + [cur];
        assert list[..i + 1] == list[..i] + [cur];
        forall e | e in list
          ensures e.trace == old(e.trace) + Repeat(UpdateEvents(e.componentOrder, timeElapsed), Count(list[..i + 1], e))
        {
          CountStep(list, i, e);
          if e == cur {
            RepeatSnoc(UpdateEvents(e.componentOrder, timeElapsed), Count(list[..i], e));
          } else {
            assert e.trace == old@Before(e.trace);
          }
        }
        i := i + 1;
      }
      assert list[..i] == list;
      forall e | e in list
        ensures Count(list, e) == multiset(list)[e]
      {
        CountIsMultiplicity(list, e);
      }
    }
  }

  /** On a list without repeats, `SetActive(e, _)` leaves exactly the
      other entities, in their old order. */
  lemma SetActiveRemovesOnly(entities: seq<Entity>, e: Entity)
    requires NoDup(entities)
    ensures RemoveFirst(entities, e) == Without(entities, e)
    ensures e !in RemoveFirst(entities, e)
    ensures forall x :: x in RemoveFirst(entities, e) <==> x in entities && x != e
  {
    RemoveFirstIsWithout(entities, e);
    WithoutMembers(entities, e);
  }
}
