/** The entity/component model of src/entity.js.

    An entity owns a table of components keyed by class name and a table
    from message topics to handler lists. Handlers are closures in the
    source; here they are opaque ids, and invoking one is recorded as an
    event in the entity's `trace`. Likewise a component's `InitComponent`
    and `Update` hooks, which subclasses override, are recorded as events
    naming the component. */
module Entities {
  import opened Wrappers
  import opened Sequences

  datatype Vec3 = Vec3(x: real, y: real, z: real)

  datatype Quat = Quat(x: real, y: real, z: real, w: real)

  /** Identity of a registered handler closure. */
  type HandlerId = nat

  /** What a message carries: the entity's position or rotation, or some
      payload this module does not inspect. */
  datatype Value = PositionValue(p: Vec3) | RotationValue(q: Quat) | Opaque(tag: string)

  datatype Message = Message(topic: string, value: Value)

  /** Something observable an entity did: invoke a handler with a message,
      or run a component's `InitComponent` or `Update` hook. */
  datatype Event =
    | HandlerCalled(handler: HandlerId, msg: Message)
    | ComponentInitialized(component: string)
    | ComponentUpdated(component: string, timeElapsed: real)

  const PositionTopic: string := "update.position"
  const RotationTopic: string := "update.rotation"

  /** A handler table after `_RegisterHandler(n, h)`: `h` is appended to
      topic `n`'s list, which is created empty first when absent. */
  function Registered(handlers: map<string, seq<HandlerId>>, n: string, h: HandlerId): (r: map<string, seq<HandlerId>>)
    ensures n in r && |r[n]| > 0 && r[n][|r[n]| - 1] == h
    ensures r[n][..|r[n]| - 1] == if n in handlers then handlers[n] else []
    ensures forall t :: t != n ==> (t in r <==> t in handlers)
    ensures forall t :: t != n && t in handlers ==> r[t] == handlers[t]
  {
    var list := if n in handlers then handlers[n] else [];
    assert (list + [h])[..|list|] == list;
    handlers[n := list + [h]]
  }

  /** The calls a broadcast of `m` makes through `list`: each handler once,
      in list order. */
  function CallsOf(list: seq<HandlerId>, m: Message): (r: seq<Event>)
    ensures |r| == |list|
    ensures forall i :: 0 <= i < |list| ==> r[i] == HandlerCalled(list[i], m)
  {
    if list == [] then [] else [HandlerCalled(list[0], m)] + CallsOf(list[1..], m)
  }

  /** The calls `Broadcast(m)` makes: none for a topic without a handler
      list, otherwise one per handler registered for the topic. */
  function Calls(handlers: map<string, seq<HandlerId>>, m: Message): (r: seq<Event>)
    ensures m.topic !in handlers ==> r == []
    ensures m.topic in handlers ==> |r| == |handlers[m.topic]|
  {
    if m.topic in handlers then CallsOf(handlers[m.topic], m) else []
  }

  lemma {:induction false} CallsOfAppend(a: seq<HandlerId>, b: seq<HandlerId>, m: Message)
    ensures CallsOf(a + b, m) == CallsOf(a, m) + CallsOf(b, m)
  {
    if a != [] {
      assert (a + b)[1..] == a[1..] + b;
      CallsOfAppend(a[1..], b, m);
    } else {
      assert a + b == b;
    }
  }

  /** Calling through one more handler of the list appends its call. */
  lemma CallsOfSnoc(list: seq<HandlerId>, i: nat, m: Message)
    requires i < |list|
    ensures CallsOf(list[..i + 1], m) == CallsOf(list[..i], m) + [HandlerCalled(list[i], m)]
  {
    assert list[..i + 1] == list[..i] + [list[i]];
    CallsOfAppend(list[..i], [list[i]], m);
  }

  /** Registering a handler adds exactly one call, at the end, to the
      broadcasts of its topic and changes the broadcasts of no other
      topic. */
  lemma RegisterThenBroadcast(handlers: map<string, seq<HandlerId>>, n: string, h: HandlerId, m: Message)
    ensures Calls(Registered(handlers, n, h), m) ==
      Calls(handlers, m) + (if m.topic == n then [HandlerCalled(h, m)] else [])
  {
    var r := Registered(handlers, n, h);
    if m.topic == n {
      var list := if n in handlers then handlers[n] else [];
      assert r[n] == list + [h];
      CallsOfAppend(list, [h], m);
    }
  }

  /** The hook events `Update(timeElapsed)` records: one per stored
      component, in the order the names were first stored. */
  function UpdateEvents(order: seq<string>, timeElapsed: real): (r: seq<Event>)
    ensures |r| == |order|
  {
    if order == [] then [] else UpdateEvents(order[..|order| - 1], timeElapsed) + [ComponentUpdated(order[|order| - 1], timeElapsed)]
  }

  /** The `i`-th update hook run is that of the `i`-th stored name. */
  lemma {:induction false} UpdateEventsAt(order: seq<string>, timeElapsed: real, i: int)
    requires 0 <= i < |order|
    ensures UpdateEvents(order, timeElapsed)[i] == ComponentUpdated(order[i], timeElapsed)
  {
    var init := order[..|order| - 1];
    if i < |order| - 1 {
      UpdateEventsAt(init, timeElapsed, i);
      assert init[i] == order[i];
    }
  }

  /** A component: the class name it is stored under and the entity it is
      attached to. The accessors delegate to that entity, so sibling
      components share one component table and one handler table. */
  class Component {
    const className: string
    var parent: Entity?

    constructor(className: string)
      ensures this.className == className && parent == null
    {
      this.className := className;
      parent := null;
    }

    /** `SetParent`. */
    method SetParent(p: Entity)
      modifies this`parent
      ensures parent == p
    {
      parent := p;
    }

    /** `GetComponent(n)`: the parent's component stored under `n`. */
    method GetComponent(n: string) returns (c: Option<Component>)
      requires parent != null
      ensures c == parent.GetComponent(n)
    {
      c := parent.GetComponent(n);
    }

    /** `Broadcast(m)`: the parent's broadcast. */
    method Broadcast(m: Message)
      requires parent != null
      modifies parent`trace
      ensures parent.trace == old(parent.trace) + Calls(parent.handlers, m)
    {
      parent.Broadcast(m);
    }

    /** `_RegisterHandler(n, h)`: registers with the parent. */
    method RegisterHandler(n: string, h: HandlerId)
      requires parent != null
      modifies parent`handlers
      ensures parent.handlers == Registered(old(parent.handlers), n, h)
    {
      parent.RegisterHandler(n, h);
    }
  }

  /** An entity. `componentOrder` lists the component names in the order
      JavaScript enumerates the keys of `_components`: the order in which
      each name was first stored. */
  class Entity {
    var name: Option<string>
    var components: map<string, Component>
    var componentOrder: seq<string>
    var position: Vec3
    var rotation: Quat
    var handlers: map<string, seq<HandlerId>>
    var trace: seq<Event>

    /** The component table and its enumeration order agree: every stored
        name is listed exactly once. */
    ghost predicate Valid()
      reads this
    {
      NoDup(componentOrder) &&
      (forall k :: k in components <==> k in componentOrder)
    }

    /** A fresh entity: no name, no components, no handlers, at the
        origin with the identity rotation. */
    constructor()
      ensures Valid()
      ensures name == None && components == map[] && componentOrder == [] && handlers == map[] && trace == []
      ensures position == Vec3(0.0, 0.0, 0.0) && rotation == Quat(0.0, 0.0, 0.0, 1.0)
    {
      name := None;
      components := map[];
      componentOrder := [];
      position := Vec3(0.0, 0.0, 0.0);
      rotation := Quat(0.0, 0.0, 0.0, 1.0);
      handlers := map[];
      trace := [];
    }

    /** `SetName`. */
    method SetName(n: string)
      modifies this`name
      ensures name == Some(n)
    {
      name := Some(n);
    }

    /** `_RegisterHandler(n, h)`: append `h` to topic `n`'s list. */
    method RegisterHandler(n: string, h: HandlerId)
      modifies this`handlers
      ensures handlers == Registered(old(handlers), n, h)
    {
      var list := if n in handlers then handlers[n] else [];
      handlers := handlers[n := list + [h]];
    }

    /** `GetComponent(n)`: the component stored under `n`, if any. */
    function GetComponent(n: string): (c: Option<Component>)
      reads this
      ensures c.Some? <==> n in components
      ensures c.Some? ==> c.value == components[n]
    {
      if n in components then Some(components[n]) else None
    }

    /** `AddComponent(c)`: attach `c` to this entity, store it under its
        class name (replacing a component stored under that name, which
        keeps its place in the enumeration order), then run its
        `InitComponent` hook. */
    method AddComponent(c: Component)
      requires Valid()
      modifies this, c`parent
      ensures Valid()
      ensures c.parent == this
      ensures components == old(components)[c.className := c]
      ensures componentOrder == if c.className in old(components) then old(componentOrder) else old(componentOrder) + [c.className]
      ensures trace == old(trace) + [ComponentInitialized(c.className)]
      ensures name == old(name) && position == old(position) && rotation == old(rotation) && handlers == old(handlers)
    {
      c.SetParent(this);
      if c.className !in components {
        componentOrder := componentOrder + [c.className];
      }
      components := components[c.className := c];
      trace := trace + [ComponentInitialized(c.className)];
    }

    /** `Broadcast(m)`: invoke every handler registered for `m.topic`, in
        registration order; nothing happens for a topic without handlers. */
    method Broadcast(m: Message)
      modifies this`trace
      ensures trace == old(trace) + Calls(handlers, m)
    {
      if m.topic !in handlers {
        return;
      }
      var list := handlers[m.topic];
      var i := 0;
      while i < |list|
        invariant 0 <= i <= |list|
        invariant trace == old(trace) + CallsOf(list[..i], m)
      {
        CallsOfSnoc(list, i, m);
        trace := trace + [HandlerCalled(list[i], m)];
        i := i + 1;
      }
      assert list[..i] == list;
    }

    /** `SetPosition(p)`: store the position, then broadcast it under
        `update.position`. */
    method SetPosition(p: Vec3)
      modifies this`position, this`trace
      ensures position == p
      ensures trace == old(trace) + Calls(handlers, Message(PositionTopic, PositionValue(p)))
    {
      position := p;
      Broadcast(Message(PositionTopic, PositionValue(position)));
    }

    /** `SetQuaternion(r)`: store the rotation, then broadcast it under
        `update.rotation`. */
    method SetQuaternion(r: Quat)
      modifies this`rotation, this`trace
      ensures rotation == r
      ensures trace == old(trace) + Calls(handlers, Message(RotationTopic, RotationValue(r)))
    {
      rotation := r;
      Broadcast(Message(RotationTopic, RotationValue(rotation)));
    }

    /** `Update(timeElapsed)`: run every stored component's `Update` hook,
        in enumeration order. */
    method Update(timeElapsed: real)
      modifies this`trace
      ensures trace == old(trace) + UpdateEvents(componentOrder, timeElapsed)
    {
      var i := 0;
      while i < |componentOrder|
        invariant 0 <= i <= |componentOrder|
        invariant trace == old(trace) + UpdateEvents(componentOrder[..i], timeElapsed)
      {
        assert componentOrder[..i + 1][..i] == componentOrder[..i];
        trace := trace + [ComponentUpdated(componentOrder[i], timeElapsed)];
        i := i + 1;
      }
      assert componentOrder[..i] == componentOrder;
    }
  }

  /** On a valid entity, `Update` runs the hook of every stored component
      exactly once. */
  lemma {:induction false} UpdateRunsEachOnce(order: seq<string>, components: set<string>, timeElapsed: real)
    requires NoDup(order) && forall k :: k in components <==> k in order
    ensures |UpdateEvents(order, timeElapsed)| == |components|
    ensures forall k :: k in components <==> ComponentUpdated(k, timeElapsed) in UpdateEvents(order, timeElapsed)
  {
    NoDupCard(order, components);
    var r := UpdateEvents(order, timeElapsed);
    forall k ensures k in components <==> ComponentUpdated(k, timeElapsed) in r {
      if k in components {
        var i :| 0 <= i < |order| && order[i] == k;
        UpdateEventsAt(order, timeElapsed, i);
      }
      if ComponentUpdated(k, timeElapsed) in r {
        var i :| 0 <= i < |r| && r[i] == ComponentUpdated(k, timeElapsed);
        UpdateEventsAt(order, timeElapsed, i);
      }
    }
  }

  /** A duplicate-free sequence has as many elements as the set of its
      elements. */
  lemma {:induction false} NoDupCard<T>(s: seq<T>, elems: set<T>)
    requires NoDup(s) && forall k :: k in elems <==> k in s
    ensures |elems| == |s|
  {
    if s != [] {
      var last := s[|s| - 1];
      var init := s[..|s| - 1];
      assert NoDup(init) by {
        forall i, j | 0 <= i < j < |init| ensures init[i] != init[j] {
          assert init[i] == s[i] && init[j] == s[j];
        }
      }
      assert last !in init by {
        forall i | 0 <= i < |init| ensures init[i] != last {
          assert init[i] == s[i];
        }
      }
      forall k ensures k in elems - {last} <==> k in init {
        if k in init {
          var i :| 0 <= i < |init| && init[i] == k;
          assert s[i] == k;
        }
        if k in s && k != last {
          var i :| 0 <= i < |s| && s[i] == k;
          assert i < |s| - 1 && init[i] == k;
        }
      }
      NoDupCard(init, elems - {last});
    } else {
      assert elems == {};
    }
  }
}
