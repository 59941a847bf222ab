/** The component of src/spatial-grid-controller.js that keeps its entity
    registered in a spatial hash grid under the ground-plane coordinates
    `(x, z)` of the entity's position, and asks the grid for neighbours. */
module SpatialGridControl {
  import opened Wrappers
  import opened Sequences
  import opened Entities
  import opened SpatialHash

  /** The size every controller gives its client: one unit square. */
  const ClientSize: Vec2 := Vec2(1.0, 1.0)

  /** The ground-plane point of a world position: its `x` and `z`. */
  function GroundPoint(p: Vec3): Vec2
  {
    Vec2(p.x, p.z)
  }

  /** The test of `FindNearbyEntities`' filter, `c.entity != this._parent`. */
  function NotOwnedBy(cl: seq<Client<Entity>>, parent: Entity): ClientId -> bool
  {
    (c: ClientId) => c >= |cl| || cl[c].entity != Some(parent)
  }

  /** `results.filter(c => c.entity != this._parent)`: the reported clients
      whose entity is not `parent`, in report order. */
  function Others(found: seq<ClientId>, cl: seq<Client<Entity>>, parent: Entity): (r: seq<ClientId>)
    ensures forall c :: c in r <==> c in found && (c >= |cl| || cl[c].entity != Some(parent))
  {
    Filter(found, NotOwnedBy(cl, parent))
  }

  /** The filter keeps a duplicate-free report duplicate-free. */
  lemma OthersNoDup(found: seq<ClientId>, cl: seq<Client<Entity>>, parent: Entity)
    requires NoDup(found)
    ensures NoDup(Others(found, cl, parent))
  {
    FilterNoDup(found, NotOwnedBy(cl, parent));
  }

  /** When `own` is the only client whose entity is `parent`, the filter
      drops exactly `own` and keeps everything else in report order. */
  lemma OthersDropsOwnClient(found: seq<ClientId>, cl: seq<Client<Entity>>, parent: Entity, own: ClientId)
    requires forall i :: 0 <= i < |found| ==> found[i] < |cl|
    requires own < |cl| && cl[own].entity == Some(parent)
    requires forall c :: 0 <= c < |cl| && c != own ==> cl[c].entity != Some(parent)
    ensures Others(found, cl, parent) == Without(found, own)
  {
    FilterIsWithout(found, own, NotOwnedBy(cl, parent));
  }

  /** A `SpatialGridController`. The `entity.Component` it extends is held
      as `component`; `client` is the grid client `InitComponent` made. */
  class SpatialGridController {
    const component: Component
    /** `_grid`. */
    const grid: SpatialHashGrid<Entity>
    /** `_client`. */
    var client: Option<ClientId>

    /** `constructor(params)`: remember the grid. */
    constructor(grid: SpatialHashGrid<Entity>)
      ensures this.grid == grid && client == None
      ensures fresh(component) && component.className == "SpatialGridController" && component.parent == null
    {
      this.grid := grid;
      client := None;
      component := new Component("SpatialGridController");
    }

    /** The controller is initialised and its client is linked into the
        grid. */
    ghost predicate Linked()
      reads this, grid, grid.cells
    {
      && grid.Valid()
      && client.Some? && client.value < |grid.clients|
      && grid.clients[client.value].cells.Some?
    }

    /** `InitComponent`: make a unit-sized client at the parent's ground
        point, link it to the parent entity, and subscribe to the parent's
        position updates with handler `h`. */
    method InitComponent(h: HandlerId)
      requires component.parent != null && grid.Valid()
      modifies grid, grid.cells, component.parent`handlers, this`client
      ensures Linked()
      ensures var pos := GroundPoint(component.parent.position);
        var r := CellRange(grid.bounds, grid.dimensions, pos, ClientSize);
        client == Some(old(|grid.clients|)) &&
        grid.clients == old(grid.clients) +
          [Client(pos, ClientSize, Some(Placement(r.0, r.1, NodeTable(r.0, r.1.x + 1, r.1.y + 1))), -1, Some(component.parent))]
      ensures var r := CellRange(grid.bounds, grid.dimensions, GroundPoint(component.parent.position), ClientSize);
        forall x, y :: 0 <= x < grid.cells.Length0 && 0 <= y < grid.cells.Length1 ==>
          grid.cells[x, y] == if r.0.x <= x <= r.1.x && r.0.y <= y <= r.1.y
                              then [old(|grid.clients|)] + old(grid.cells[x, y]) else old(grid.cells[x, y])
      ensures grid.queryIds == old(grid.queryIds)
      ensures component.parent.handlers == Registered(old(component.parent.handlers), PositionTopic, h)
    {
      var parent := component.parent;
      var pos := GroundPoint(parent.position);
      var c := grid.NewClient(pos, ClientSize);
      ghost var added := grid.clients;
      grid.SetClientEntity(c, parent);
      assert grid.clients == added[..c] + [added[c].(entity := Some(parent))];
      client := Some(c);
      component.RegisterHandler(PositionTopic, h);
      assert component.parent == parent && GroundPoint(parent.position) == pos;
    }

    /** `_OnPosition(msg)`: move the client to the ground point of the new
        position and let the grid relink it. Only this client's record
        changes, and afterwards it is placed over the cells of its new
        position. */
    method OnPosition(msg: Message)
      requires Linked() && msg.value.PositionValue?
      modifies grid, grid.cells
      ensures Linked() && client == old(client)
      ensures grid.queryIds == old(grid.queryIds)
      ensures |grid.clients| == old(|grid.clients|)
      ensures forall d :: 0 <= d < |grid.clients| && d != client.value ==> grid.clients[d] == old(grid.clients[d])
      ensures var c := grid.clients[client.value];
        var r := CellRange(grid.bounds, grid.dimensions, GroundPoint(msg.value.p), c.dimensions);
        c.position == GroundPoint(msg.value.p) && c.dimensions == old(grid.clients[client.value].dimensions) &&
        c.entity == old(grid.clients[client.value].entity) &&
        c.queryId == old(grid.clients[client.value].queryId) &&
        c.cells.value.min == r.0 && c.cells.value.max == r.1
      ensures var c := client.value;
        var r := CellRange(grid.bounds, grid.dimensions, GroundPoint(msg.value.p), old(grid.clients[c].dimensions));
        var p := old(grid.clients[c].cells.value);
        forall x, y :: 0 <= x < grid.cells.Length0 && 0 <= y < grid.cells.Length1 ==>
          grid.cells[x, y] ==
            if p.min == r.0 && p.max == r.1 then old(grid.cells[x, y])
            else if r.0.x <= x <= r.1.x && r.0.y <= y <= r.1.y then [c] + Without(old(grid.cells[x, y]), c)
            else Without(old(grid.cells[x, y]), c)
    {
      var c := client.value;
      grid.SetClientPosition(c, GroundPoint(msg.value.p));
      grid.UpdateClient(c);
    }

    /** `FindNearbyEntities(range)`: query the grid around the parent's
        ground point with extent `(range, range)` and drop the parent's
        own client. The result holds exactly the linked clients whose
        range overlaps the query's and whose entity is not the parent,
        each once; the query only restamps client records. */
    method FindNearbyEntities(range: real) returns (r: seq<ClientId>)
      requires component.parent != null && grid.Valid()
      modifies grid
      ensures grid.Valid()
      ensures grid.queryIds == old(grid.queryIds) + 1
      ensures var q := CellRange(grid.bounds, grid.dimensions, GroundPoint(component.parent.position), Vec2(range, range));
        forall c: ClientId :: c in r <==>
          c < |grid.clients| && grid.clients[c].cells.Some? &&
          Overlap(grid.clients[c].cells.value.min, grid.clients[c].cells.value.max, q.0, q.1) &&
          grid.clients[c].entity != Some(component.parent)
      ensures r == Others(grid.Near(GroundPoint(component.parent.position), Vec2(range, range)), grid.clients, component.parent)
      ensures NoDup(r)
      ensures |grid.clients| == old(|grid.clients|)
      ensures forall c :: 0 <= c < |grid.clients| ==> grid.clients[c].(queryId := old(grid.clients[c].queryId)) == old(grid.clients[c])
    {
      var parent := component.parent;
      ghost var before := grid.clients;
      var found := grid.FindNear(GroundPoint(parent.position), Vec2(range, range));
      StampedOnlyStamps(grid.clients, before, found, old(grid.queryIds));
      ghost var q := CellRange(grid.bounds, grid.dimensions, GroundPoint(parent.position), Vec2(range, range));
      r := Others(found, grid.clients, parent);
      OthersNoDup(found, grid.clients, parent);
      forall c: ClientId
        ensures c in r <==>
          c < |grid.clients| && grid.clients[c].cells.Some? &&
          Overlap(grid.clients[c].cells.value.min, grid.clients[c].cells.value.max, q.0, q.1) &&
          grid.clients[c].entity != Some(parent)
      {
      }
    }
  }
}
