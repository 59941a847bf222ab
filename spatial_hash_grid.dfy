/** The spatial hash grid of src/spatial-hash-grid.js.

    A fixed two-dimensional array of cells over a bounded world rectangle.
    Each cell holds the clients linked into it, most recently inserted
    first; the source keeps a doubly linked list of nodes per cell, modelled
    here as the sequence of client ids in list order, so pushing a node at
    the head is prepending and unlinking a node is cutting one element out.
    Clients live in an arena (`clients`) and are addressed by their index. */
module SpatialHash {
  import opened Wrappers
  import opened Sequences
  import MathUtil

  datatype Vec2 = Vec2(x: real, y: real)

  /** A cell index `[x, y]`. */
  datatype Cell = Cell(x: int, y: int)

  /** The world rectangle `[[min.x, min.y], [max.x, max.y]]`. */
  datatype Bounds = Bounds(min: Vec2, max: Vec2)

  /** The grid resolution `[x, y]`: the number of cells along each axis. */
  datatype Dimensions = Dimensions(x: nat, y: nat)

  type ClientId = nat

  /** The client's `_cells` record once it is linked: the inclusive cell
      range and the table of per-cell nodes, row `x - min.x`, column
      `y - min.y`; each node is named by the cell it is linked into. */
  datatype Placement = Placement(min: Cell, max: Cell, nodes: seq<seq<Cell>>)

  /** A client record. `cells` is `None` while the client is not linked
      (the source's `min`, `max` and `nodes` all null); `queryId` is the
      stamp of the last query that reported it; `entity` is the payload a
      caller may attach. */
  datatype Client<E> = Client(
    position: Vec2,
    dimensions: Vec2,
    cells: Option<Placement>,
    queryId: int,
    entity: Option<E>)

  /** The geometry the index arithmetic needs: a world rectangle of positive
      width and height and at least one cell along each axis. */
  predicate WellFormed(bounds: Bounds, dims: Dimensions)
  {
    bounds.min.x < bounds.max.x && bounds.min.y < bounds.max.y && dims.x >= 1 && dims.y >= 1
  }

  /** The index along one axis of the cell holding coordinate `v`: the
      coordinate is normalised against `[lo, hi]`, saturated to [0, 1] and
      scaled to `[0, d - 1]`, then rounded down. */
  function AxisIndex(v: real, lo: real, hi: real, d: nat): (i: int)
    requires lo < hi && d >= 1
    ensures 0 <= i <= d - 1
  {
    var s := MathUtil.Sat((v - lo) / (hi - lo));
    MathUtil.LerpBetween(s, 0.0, (d - 1) as real);
    (s * (d - 1) as real).Floor
  }

  /** `_GetCellIndex`: the cell holding a position. Positions outside the
      world rectangle land in a border cell; they are never rejected. */
  function CellIndex(bounds: Bounds, dims: Dimensions, p: Vec2): (c: Cell)
    requires WellFormed(bounds, dims)
    ensures 0 <= c.x < dims.x && 0 <= c.y < dims.y
  {
    Cell(AxisIndex(p.x, bounds.min.x, bounds.max.x, dims.x),
         AxisIndex(p.y, bounds.min.y, bounds.max.y, dims.y))
  }

  /** The inclusive cell range covered by the box of size `extent` centred
      on `position`, as `_Insert`, `UpdateClient` and `FindNear` compute it. */
  function CellRange(bounds: Bounds, dims: Dimensions, position: Vec2, extent: Vec2): (r: (Cell, Cell))
    requires WellFormed(bounds, dims)
  {
    (CellIndex(bounds, dims, Vec2(position.x - extent.x / 2.0, position.y - extent.y / 2.0)),
     CellIndex(bounds, dims, Vec2(position.x + extent.x / 2.0, position.y + extent.y / 2.0)))
  }

  /** Coordinates at or below the lower bound map to the first cell. */
  lemma AxisIndexBelow(v: real, lo: real, hi: real, d: nat)
    requires lo < hi && d >= 1 && v <= lo
    ensures AxisIndex(v, lo, hi, d) == 0
  {
    assert (v - lo) / (hi - lo) <= 0.0;
  }

  /** The last index is produced exactly for coordinates at or beyond the
      upper bound, that is, exactly when the saturated coordinate is 1.
      (With a single cell every coordinate gets index 0, which is also the
      last, so this needs two cells or more.) */
  lemma {:induction false} AxisIndexLast(v: real, lo: real, hi: real, d: nat)
    requires lo < hi && d >= 2
    ensures AxisIndex(v, lo, hi, d) == d - 1 <==> MathUtil.Sat((v - lo) / (hi - lo)) == 1.0
    ensures MathUtil.Sat((v - lo) / (hi - lo)) == 1.0 <==> v >= hi
  {
    var s := MathUtil.Sat((v - lo) / (hi - lo));
    var m := (d - 1) as real;
    if s < 1.0 {
      assert s * m < m by {
        MathUtil.MulNonNegative(1.0 - s, m);
        assert (1.0 - s) * m > 0.0 by {
          assert m >= 1.0;
          assert (1.0 - s) * m >= (1.0 - s) * 1.0;
        }
      }
      assert (s * m).Floor < d - 1;
    }
    DivAtLeastOne(v - lo, hi - lo);
  }

  lemma DivAtLeastOne(a: real, b: real)
    requires b > 0.0
    ensures a / b >= 1.0 <==> a >= b
  {
    var q := a / b;
    assert q * b == a;
    if q >= 1.0 {
      assert (q - 1.0) * b >= 0.0;
    } else {
      assert (1.0 - q) * b > 0.0;
    }
  }

  /** The index never decreases as the coordinate grows. */
  lemma {:induction false} AxisIndexMonotone(v: real, w: real, lo: real, hi: real, d: nat)
    requires lo < hi && d >= 1 && v <= w
    ensures AxisIndex(v, lo, hi, d) <= AxisIndex(w, lo, hi, d)
  {
    var a := (v - lo) / (hi - lo);
    var b := (w - lo) / (hi - lo);
    assert a <= b by {
      assert b - a == (w - v) / (hi - lo);
    }
    MathUtil.SatMonotone(a, b);
    var m := (d - 1) as real;
    MathUtil.MulNonNegative(MathUtil.Sat(b) - MathUtil.Sat(a), m);
    assert MathUtil.Sat(a) * m <= MathUtil.Sat(b) * m;
  }

  /** A box of non-negative extent covers a range whose lower corner is not
      beyond its upper corner on either axis. */
  lemma CellRangeOrdered(bounds: Bounds, dims: Dimensions, position: Vec2, extent: Vec2)
    requires WellFormed(bounds, dims) && extent.x >= 0.0 && extent.y >= 0.0
    ensures var r := CellRange(bounds, dims, position, extent);
      r.0.x <= r.1.x && r.0.y <= r.1.y
  {
    AxisIndexMonotone(position.x - extent.x / 2.0, position.x + extent.x / 2.0,
                      bounds.min.x, bounds.max.x, dims.x);
    AxisIndexMonotone(position.y - extent.y / 2.0, position.y + extent.y / 2.0,
                      bounds.min.y, bounds.max.y, dims.y);
  }

  /** Row `x` of the node table: the cells `(x, y)` for `y0 <= y < y1`. */
  function NodeRow(x: int, y0: int, y1: int): seq<Cell>
    decreases y1 - y0
  {
    if y1 <= y0 then [] else NodeRow(x, y0, y1 - 1) + [Cell(x, y1 - 1)]
  }

  /** The node table `_Insert` builds: one row per `x` in `[min.x, xEnd)`,
      each row covering `[min.y, yEnd)`. */
  function NodeTable(min: Cell, xEnd: int, yEnd: int): seq<seq<Cell>>
    decreases xEnd - min.x
  {
    if xEnd <= min.x then [] else NodeTable(min, xEnd - 1, yEnd) + [NodeRow(xEnd - 1, min.y, yEnd)]
  }

  /** The node table of a placement from `min` to `max` has
      `max.x - min.x + 1` rows of `max.y - min.y + 1` nodes, and the node
      at row `i`, column `j` is the one linked into cell
      `(min.x + i, min.y + j)`. */
  lemma {:induction false} NodeTableShape(min: Cell, max: Cell, i: int, j: int)
    requires min.x <= max.x && min.y <= max.y
    requires 0 <= i <= max.x - min.x && 0 <= j <= max.y - min.y
    ensures |NodeTable(min, max.x + 1, max.y + 1)| == max.x - min.x + 1
    ensures |NodeTable(min, max.x + 1, max.y + 1)[i]| == max.y - min.y + 1
    ensures NodeTable(min, max.x + 1, max.y + 1)[i][j] == Cell(min.x + i, min.y + j)
  {
    NodeTableRows(min, max.x + 1, max.y + 1, i);
    NodeRowCells(min.x + i, min.y, max.y + 1, j);
  }

  lemma {:induction false} NodeTableRows(min: Cell, xEnd: int, yEnd: int, i: int)
    requires 0 <= i < xEnd - min.x
    ensures |NodeTable(min, xEnd, yEnd)| == xEnd - min.x
    ensures NodeTable(min, xEnd, yEnd)[i] == NodeRow(min.x + i, min.y, yEnd)
    decreases xEnd - min.x
  {
    if i < xEnd - 1 - min.x {
      NodeTableRows(min, xEnd - 1, yEnd, i);
    } else if xEnd - 1 > min.x {
      NodeTableRows(min, xEnd - 1, yEnd, 0);
    }
  }

  lemma {:induction false} NodeRowCells(x: int, y0: int, y1: int, j: int)
    requires 0 <= j < y1 - y0
    ensures |NodeRow(x, y0, y1)| == y1 - y0
    ensures NodeRow(x, y0, y1)[j] == Cell(x, y0 + j)
    decreases y1 - y0
  {
    if j < y1 - 1 - y0 {
      NodeRowCells(x, y0, y1 - 1, j);
    } else if y1 - 1 > y0 {
      NodeRowCells(x, y0, y1 - 1, 0);
    }
  }

  /** A placement links its client into cell `(x, y)`. */
  predicate Covers(p: Option<Placement>, x: int, y: int)
  {
    p.Some? && p.value.min.x <= x <= p.value.max.x && p.value.min.y <= y <= p.value.max.y
  }

  /** A placement whose corners are cells of a grid of `dims` cells. */
  predicate PlacementInGrid(p: Option<Placement>, dims: Dimensions)
  {
    p.Some? ==>
      0 <= p.value.min.x < dims.x && 0 <= p.value.max.x < dims.x &&
      0 <= p.value.min.y < dims.y && 0 <= p.value.max.y < dims.y
  }

  /** The cell ranges from `a0` to `a1` and from `b0` to `b1` share a cell. */
  predicate Overlap(a0: Cell, a1: Cell, b0: Cell, b1: Cell)
  {
    a0.x <= a1.x && a0.y <= a1.y && b0.x <= b1.x && b0.y <= b1.y &&
    a0.x <= b1.x && b0.x <= a1.x && a0.y <= b1.y && b0.y <= a1.y
  }

  lemma PrefixStep<T>(s: seq<T>, t: seq<T>, k: nat)
    requires k < |t|
    ensures s + t[..k + 1] == (s + t[..k]) + [t[k]]
  {
    assert t[..k + 1] == t[..k] + [t[k]];
  }

  lemma AppendAssoc<T>(a: seq<T>, b: seq<T>, c: seq<T>)
    ensures a + (b + c) == (a + b) + c
  {
  }

  /** During a query with id `q`, the records `cl` are the records
      `before` the query with exactly the clients of `result` stamped. */
  ghost predicate Stamped<E>(cl: seq<Client<E>>, before: seq<Client<E>>, result: seq<ClientId>, q: int)
  {
    |cl| == |before| &&
    forall c :: 0 <= c < |cl| ==> cl[c] == if c in result then before[c].(queryId := q) else before[c]
  }

  /** A client whose old stamp is below `q` carries `q` exactly when it has
      been reported. */
  lemma StampedQuery<E>(cl: seq<Client<E>>, before: seq<Client<E>>, result: seq<ClientId>, q: int, v: ClientId)
    requires Stamped(cl, before, result, q) && v < |before| && before[v].queryId < q
    ensures cl[v].queryId == q <==> v in result
  {
  }

  /** A query changes nothing about a client record but its stamp. */
  lemma StampedOnlyStamps<E>(cl: seq<Client<E>>, before: seq<Client<E>>, result: seq<ClientId>, q: int)
    requires Stamped(cl, before, result, q)
    ensures |cl| == |before|
    ensures forall c :: 0 <= c < |cl| ==> cl[c].(queryId := before[c].queryId) == before[c]
  {
  }

  /** A query stamps each record with its id or leaves it as it was. */
  lemma StampedRestamps<E>(cl: seq<Client<E>>, before: seq<Client<E>>, result: seq<ClientId>, q: int)
    requires Stamped(cl, before, result, q)
    ensures |cl| == |before|
    ensures forall c :: 0 <= c < |cl| ==> cl[c] == before[c] || cl[c] == before[c].(queryId := q)
  {
  }

  /** Reporting one more client stamps it and nothing else. */
  lemma StampedAdd<E>(cl: seq<Client<E>>, before: seq<Client<E>>, result: seq<ClientId>, q: int, v: ClientId)
    requires Stamped(cl, before, result, q) && v < |cl|
    ensures Stamped(cl[v := cl[v].(queryId := q)], before, result + [v], q)
  {
  }

  /** One step of a cell walk: the client at position `k` of the cell's
      list is reported and stamped exactly when it is not yet stamped, and
      then `result` is the deduplication of one more scanned client. */
  lemma ScanStep<E>(cl: seq<Client<E>>, before: seq<Client<E>>, result: seq<ClientId>, q: int,
                    scanned: seq<ClientId>, list: seq<ClientId>, k: nat)
    requires k < |list| && list[k] < |before| && before[list[k]].queryId < q
    requires result == Dedup(scanned + list[..k]) && Stamped(cl, before, result, q)
    ensures list[k] < |cl|
    ensures var v := list[k];
      cl[v].queryId != q ==>
        result + [v] == Dedup(scanned + list[..k + 1]) && Stamped(cl[v := cl[v].(queryId := q)], before, result + [v], q)
    ensures var v := list[k];
      cl[v].queryId == q ==> result == Dedup(scanned + list[..k + 1])
  {
    var v := list[k];
    StampedQuery(cl, before, result, q, v);
    DedupMember(scanned + list[..k], v);
    DedupSnoc(scanned + list[..k], v);
    PrefixStep(scanned, list, k);
    if cl[v].queryId != q {
      StampedAdd(cl, before, result, q, v);
    }
  }

  /** Cell `(x, y)`, holding the list `s`, agrees with the client records
      `cl`: it holds no client twice, and it holds exactly the clients whose
      placement covers it. */
  predicate CellAgrees<E>(cl: seq<Client<E>>, s: seq<ClientId>, x: int, y: int)
  {
    && NoDup(s)
    && (forall c :: c in s ==> c < |cl| && Covers(cl[c].cells, x, y))
    && (forall c :: 0 <= c < |cl| && Covers(cl[c].cells, x, y) ==> c in s)
  }

  /** Linking an unlinked client `c` with placement `p` pushes it at the
      head of exactly the cells `p` covers. */
  lemma LinkCell<E>(cl: seq<Client<E>>, s: seq<ClientId>, x: int, y: int, c: ClientId, p: Placement)
    requires CellAgrees(cl, s, x, y) && c < |cl| && cl[c].cells.None?
    ensures CellAgrees(cl[c := cl[c].(cells := Some(p))], if Covers(Some(p), x, y) then [c] + s else s, x, y)
  {
    assert c !in s;
  }

  /** Unlinking client `c` removes it from every cell. */
  lemma UnlinkCell<E>(cl: seq<Client<E>>, s: seq<ClientId>, x: int, y: int, c: ClientId)
    requires CellAgrees(cl, s, x, y) && c < |cl|
    ensures CellAgrees(cl[c := cl[c].(cells := None)], Without(s, c), x, y)
  {
    WithoutMembers(s, c);
  }

  /** A new, unlinked client is in no cell. */
  lemma AppendCell<E>(cl: seq<Client<E>>, s: seq<ClientId>, x: int, y: int, n: Client<E>)
    requires CellAgrees(cl, s, x, y) && n.cells.None?
    ensures CellAgrees(cl + [n], s, x, y)
  {
    assert forall c :: 0 <= c < |cl| ==> (cl + [n])[c] == cl[c];
  }

  /** Records whose links are unchanged agree with the same cells. */
  lemma SameLinksCell<E>(cl: seq<Client<E>>, cl': seq<Client<E>>, s: seq<ClientId>, x: int, y: int)
    requires CellAgrees(cl, s, x, y) && |cl'| == |cl|
    requires forall c :: 0 <= c < |cl| ==> cl'[c].cells == cl[c].cells
    ensures CellAgrees(cl', s, x, y)
  {
  }

  class SpatialHashGrid<E> {
    const bounds: Bounds
    const dimensions: Dimensions
    /** `_cells`: the clients linked into each cell, head of the list first. */
    const cells: array2<seq<ClientId>>
    /** The client records, addressed by `ClientId`. */
    var clients: seq<Client<E>>
    /** `_queryIds`: the id the next query will use. */
    var queryIds: nat

    /** The grid's invariant: the geometry is well formed, the array has
        the grid's shape, and the clients are consistent with the cells. */
    ghost predicate Valid()
      reads this, cells
    {
      && WellFormed(bounds, dimensions)
      && cells.Length0 == dimensions.x && cells.Length1 == dimensions.y
      && Consistent(clients, queryIds)
    }

    /** Client records `cl` agree with the cells when every client is
        stamped with an id below the next query id `q`, a linked client's
        range lies inside the grid, and every cell agrees with the records:
        no cell holds a client twice, and a client is linked into a cell
        exactly when its placement covers that cell. */
    ghost predicate Consistent(cl: seq<Client<E>>, q: nat)
      reads cells
    {
      && (forall c :: 0 <= c < |cl| ==> cl[c].queryId < q && PlacementInGrid(cl[c].cells, dimensions))
      && (forall x, y {:trigger CellAgrees(cl, cells[x, y], x, y)} ::
            0 <= x < cells.Length0 && 0 <= y < cells.Length1 ==> CellAgrees(cl, cells[x, y], x, y))
    }

    /** Stamping some clients with the id `q` of the running query keeps
        the records consistent once the next id is `q + 1`. */
    lemma Restamp(before: seq<Client<E>>, after: seq<Client<E>>, q: nat)
      requires Consistent(before, q) && |after| == |before|
      requires forall c :: 0 <= c < |after| ==> after[c] == before[c] || after[c] == before[c].(queryId := q)
      ensures Consistent(after, q + 1)
    {
      assert forall c :: 0 <= c < |after| ==> after[c].queryId <= q;
      forall x, y | 0 <= x < cells.Length0 && 0 <= y < cells.Length1
        ensures CellAgrees(after, cells[x, y], x, y)
      {
        SameLinksCell(before, after, cells[x, y], x, y);
      }
    }

    /** A grid over `bounds` with `dimensions` cells, all empty, and no
        query run yet. */
    constructor(bounds: Bounds, dimensions: Dimensions)
      requires WellFormed(bounds, dimensions)
      ensures Valid() && fresh(cells)
      ensures this.bounds == bounds && this.dimensions == dimensions
      ensures clients == [] && queryIds == 0
      ensures forall x, y :: 0 <= x < cells.Length0 && 0 <= y < cells.Length1 ==> cells[x, y] == []
    {
      this.bounds := bounds;
      this.dimensions := dimensions;
      cells := new seq<ClientId>[dimensions.x, dimensions.y]((x, y) => []);
      clients := [];
      queryIds := 0;
    }

    /** The cell range a client's current position and extent cover. */
    function ClientRange(c: Client<E>): (r: (Cell, Cell))
      requires WellFormed(bounds, dimensions)
      ensures r == CellRange(bounds, dimensions, c.position, c.dimensions)
    {
      CellRange(bounds, dimensions, c.position, c.dimensions)
    }

    /** `NewClient`: allocate a client record at `position` with size
        `extent`, unstamped (query id -1), and link it into its cells. */
    method NewClient(position: Vec2, extent: Vec2) returns (c: ClientId)
      requires Valid()
      modifies this, cells
      ensures Valid()
      ensures c == old(|clients|)
      ensures var r := CellRange(bounds, dimensions, position, extent);
        clients == old(clients) + [Client(position, extent, Some(Placement(r.0, r.1, NodeTable(r.0, r.1.x + 1, r.1.y + 1))), -1, None)]
      ensures queryIds == old(queryIds)
      ensures var r := CellRange(bounds, dimensions, position, extent);
        forall x, y :: 0 <= x < cells.Length0 && 0 <= y < cells.Length1 ==>
          cells[x, y] == if r.0.x <= x <= r.1.x && r.0.y <= y <= r.1.y then [c] + old(cells[x, y]) else old(cells[x, y])
    {
      c := |clients|;
      var n := Client(position, extent, None, -1, None);
      clients := clients + [n];
      forall x, y | 0 <= x < cells.Length0 && 0 <= y < cells.Length1
        ensures CellAgrees(clients, cells[x, y], x, y)
      {
        AppendCell(old(clients), cells[x, y], x, y, n);
      }
      Insert(c);
    }

    /** Assigning a client's `position`: the record changes, the links
        do not until the next `UpdateClient`. */
    method SetClientPosition(c: ClientId, position: Vec2)
      requires Valid() && c < |clients|
      modifies this`clients
      ensures Valid()
      ensures clients == old(clients)[c := old(clients[c]).(position := position)]
    {
      clients := clients[c := clients[c].(position := position)];
      forall x, y | 0 <= x < cells.Length0 && 0 <= y < cells.Length1
        ensures CellAgrees(clients, cells[x, y], x, y)
      {
        SameLinksCell(old(clients), clients, cells[x, y], x, y);
      }
    }

    /** Assigning a client's `entity` payload. */
    method SetClientEntity(c: ClientId, e: E)
      requires Valid() && c < |clients|
      modifies this`clients
      ensures Valid()
      ensures clients == old(clients)[c := old(clients[c]).(entity := Some(e))]
    {
      clients := clients[c := clients[c].(entity := Some(e))];
      forall x, y | 0 <= x < cells.Length0 && 0 <= y < cells.Length1
        ensures CellAgrees(clients, cells[x, y], x, y)
      {
        SameLinksCell(old(clients), clients, cells[x, y], x, y);
      }
    }

    /** `_Insert`: push a node for client `c` at the head of every cell of
        its current range, and record the range and the node table. */
    method Insert(c: ClientId)
      requires Valid() && c < |clients| && clients[c].cells.None?
      modifies this, cells
      ensures Valid()
      ensures var r := ClientRange(old(clients[c]));
        clients == old(clients)[c := old(clients[c]).(cells := Some(Placement(r.0, r.1, NodeTable(r.0, r.1.x + 1, r.1.y + 1))))]
      ensures queryIds == old(queryIds)
      ensures var r := ClientRange(old(clients[c]));
        forall x, y :: 0 <= x < cells.Length0 && 0 <= y < cells.Length1 ==>
          cells[x, y] == if r.0.x <= x <= r.1.x && r.0.y <= y <= r.1.y then [c] + old(cells[x, y]) else old(cells[x, y])
    {
      var r := ClientRange(clients[c]);
      var i1, i2 := r.0, r.1;
      var nodes: seq<seq<Cell>> := [];
      var x := i1.x;
      while x <= i2.x
        invariant i1.x <= x && (x <= i2.x + 1 || x == i1.x)
        modifies cells
        invariant nodes == NodeTable(i1, x, i2.y + 1)
        invariant forall x', y' :: 0 <= x' < cells.Length0 && 0 <= y' < cells.Length1 ==>
          cells[x', y'] == if i1.x <= x' < x && i1.y <= y' <= i2.y then [c] + old(cells[x', y']) else old(cells[x', y'])
      {
        var row: seq<Cell> := [];
        var y := i1.y;
        while y <= i2.y
          invariant i1.y <= y && (y <= i2.y + 1 || y == i1.y)
          modifies cells
          invariant row == NodeRow(x, i1.y, y)
          invariant forall x', y' :: 0 <= x' < cells.Length0 && 0 <= y' < cells.Length1 ==>
            cells[x', y'] == if (i1.x <= x' < x && i1.y <= y' <= i2.y) || (x' == x && i1.y <= y' < y)
                             then [c] + old(cells[x', y']) else old(cells[x', y'])
        {
          row := row + [Cell(x, y)];
          cells[x, y] := [c] + cells[x, y];
          y := y + 1;
        }
        assert row == NodeRow(x, i1.y, i2.y + 1);
        nodes := nodes + [row];
        x := x + 1;
      }
      assert nodes == NodeTable(i1, i2.x + 1, i2.y + 1);
      var p := Placement(i1, i2, nodes);
      clients := clients[c := clients[c].(cells := Some(p))];
      forall x, y | 0 <= x < cells.Length0 && 0 <= y < cells.Length1
        ensures CellAgrees(clients, cells[x, y], x, y)
      {
        LinkCell(old(clients), old(cells[x, y]), x, y, c, p);
      }
    }

    /** `Remove`: unlink client `c` from every cell of its recorded range
        and clear the record. Afterwards `c` is in no cell, and every cell
        keeps its other clients in their old order. */
    method Remove(c: ClientId)
      requires Valid() && c < |clients| && clients[c].cells.Some?
      modifies this, cells
      ensures Valid()
      ensures clients == old(clients)[c := old(clients[c]).(cells := None)]
      ensures queryIds == old(queryIds)
      ensures forall x, y :: 0 <= x < cells.Length0 && 0 <= y < cells.Length1 ==>
        cells[x, y] == Without(old(cells[x, y]), c) && c !in cells[x, y]
    {
      var p := clients[c].cells.value;
      var i1, i2 := p.min, p.max;
      var x := i1.x;
      while x <= i2.x
        invariant i1.x <= x && (x <= i2.x + 1 || x == i1.x)
        modifies cells
        invariant forall x', y' :: 0 <= x' < cells.Length0 && 0 <= y' < cells.Length1 ==>
          cells[x', y'] == if i1.x <= x' < x && i1.y <= y' <= i2.y then RemoveFirst(old(cells[x', y']), c) else old(cells[x', y'])
      {
        var y := i1.y;
        while y <= i2.y
          invariant i1.y <= y && (y <= i2.y + 1 || y == i1.y)
          modifies cells
          invariant forall x', y' :: 0 <= x' < cells.Length0 && 0 <= y' < cells.Length1 ==>
            cells[x', y'] == if (i1.x <= x' < x && i1.y <= y' <= i2.y) || (x' == x && i1.y <= y' < y)
                             then RemoveFirst(old(cells[x', y']), c) else old(cells[x', y'])
        {
          cells[x, y] := RemoveFirst(cells[x, y], c);
          y := y + 1;
        }
        x := x + 1;
      }
      clients := clients[c := clients[c].(cells := None)];
      forall x, y | 0 <= x < cells.Length0 && 0 <= y < cells.Length1
        ensures cells[x, y] == Without(old(cells[x, y]), c) && c !in cells[x, y]
        ensures CellAgrees(clients, cells[x, y], x, y)
      {
        assert CellAgrees(old(clients), old(cells[x, y]), x, y);
        RemoveFirstIsWithout(old(cells[x, y]), c);
        if !Covers(Some(p), x, y) {
          WithoutAbsent(old(cells[x, y]), c);
        }
        WithoutMembers(old(cells[x, y]), c);
        UnlinkCell(old(clients), old(cells[x, y]), x, y, c);
      }
    }

    /** `UpdateClient`: recompute the range of client `c` from its current
        position and extent; when the range is the recorded one nothing
        changes, otherwise it is `Remove` followed by `_Insert`. */
    method UpdateClient(c: ClientId)
      requires Valid() && c < |clients| && clients[c].cells.Some?
      modifies this, cells
      ensures Valid()
      ensures queryIds == old(queryIds)
      ensures var r := ClientRange(old(clients[c]));
        var p := old(clients[c].cells.value);
        if p.min == r.0 && p.max == r.1 then
          clients == old(clients) &&
          forall x, y :: 0 <= x < cells.Length0 && 0 <= y < cells.Length1 ==> cells[x, y] == old(cells[x, y])
        else
          clients == old(clients)[c := old(clients[c]).(cells := Some(Placement(r.0, r.1, NodeTable(r.0, r.1.x + 1, r.1.y + 1))))] &&
          forall x, y :: 0 <= x < cells.Length0 && 0 <= y < cells.Length1 ==>
            cells[x, y] == if r.0.x <= x <= r.1.x && r.0.y <= y <= r.1.y
                           then [c] + Without(old(cells[x, y]), c) else Without(old(cells[x, y]), c)
    {
      var r := ClientRange(clients[c]);
      var p := clients[c].cells.value;
      if p.min == r.0 && p.max == r.1 {
        return;
      }
      Remove(c);
      Insert(c);
    }

    /** The cells `(x, y0)`, ..., `(x, y1 - 1)` of one column, concatenated
        in scan order. */
    ghost function ScanColumn(x: int, y0: int, y1: int): seq<ClientId>
      reads cells
      requires 0 <= x < cells.Length0 && 0 <= y0 <= cells.Length1 && y1 <= cells.Length1
      decreases y1 - y0
    {
      if y1 <= y0 then [] else ScanColumn(x, y0, y1 - 1) + cells[x, y1 - 1]
    }

    /** The cells of the box `[x0, x1) x [y0, y1)`, concatenated in the order
        `FindNear` walks them: column by column, each column top to bottom,
        each cell's list from its head. */
    ghost function ScanBox(x0: int, x1: int, y0: int, y1: int): seq<ClientId>
      reads cells
      requires 0 <= x0 && x1 <= cells.Length0 && 0 <= y0 <= cells.Length1 && y1 <= cells.Length1
      decreases x1 - x0
    {
      if x1 <= x0 then [] else ScanBox(x0, x1 - 1, y0, y1) + ScanColumn(x1 - 1, y0, y1)
    }

    /** The clients a query at `position` with size `extent` reports: the
        cells of its range scanned in order, each client kept at its first
        occurrence. */
    ghost function Near(position: Vec2, extent: Vec2): seq<ClientId>
      reads cells
      requires WellFormed(bounds, dimensions) && cells.Length0 == dimensions.x && cells.Length1 == dimensions.y
    {
      ScanRange(CellRange(bounds, dimensions, position, extent).0, CellRange(bounds, dimensions, position, extent).1)
    }

    /** The clients met by a scan of the inclusive cell range from `i1` to
        `i2`, each kept at its first occurrence. */
    ghost function ScanRange(i1: Cell, i2: Cell): seq<ClientId>
      reads cells
      requires 0 <= i1.x < cells.Length0 && 0 <= i2.x < cells.Length0 && 0 <= i1.y < cells.Length1 && 0 <= i2.y < cells.Length1
    {
      Dedup(ScanBox(i1.x, i2.x + 1, i1.y, i2.y + 1))
    }

    /** A client occurs in a column scan exactly when it is linked into
        one of the column's cells. */
    lemma {:induction false} ScanColumnMembers(x: int, y0: int, y1: int, c: ClientId)
      requires 0 <= x < cells.Length0 && 0 <= y0 <= cells.Length1 && y1 <= cells.Length1
      ensures c in ScanColumn(x, y0, y1) <==> exists y :: y0 <= y < y1 && c in cells[x, y]
      decreases y1 - y0
    {
      if y0 < y1 {
        ScanColumnMembers(x, y0, y1 - 1, c);
      }
    }

    /** A client occurs in a box scan exactly when it is linked into one of
        the box's cells. */
    lemma {:induction false} ScanBoxMembers(x0: int, x1: int, y0: int, y1: int, c: ClientId)
      requires 0 <= x0 <= cells.Length0 && x1 <= cells.Length0 && 0 <= y0 <= cells.Length1 && y1 <= cells.Length1
      ensures c in ScanBox(x0, x1, y0, y1) <==> exists x, y :: x0 <= x < x1 && y0 <= y < y1 && c in cells[x, y]
      decreases x1 - x0
    {
      if x0 < x1 {
        var prev := ScanBox(x0, x1 - 1, y0, y1);
        var column := ScanColumn(x1 - 1, y0, y1);
        assert ScanBox(x0, x1, y0, y1) == prev + column;
        ScanBoxMembers(x0, x1 - 1, y0, y1, c);
        ScanColumnMembers(x1 - 1, y0, y1, c);
        if c in prev {
          var x, y :| x0 <= x < x1 - 1 && y0 <= y < y1 && c in cells[x, y];
        } else if c in column {
          var y :| y0 <= y < y1 && c in cells[x1 - 1, y];
        } else {
          forall x, y | x0 <= x < x1 && y0 <= y < y1
            ensures c !in cells[x, y]
          {
            if x < x1 - 1 {
              assert !(x0 <= x < x1 - 1 && y0 <= y < y1 && c in cells[x, y]);
            } else {
              assert !(y0 <= y < y1 && c in cells[x1 - 1, y]);
            }
          }
        }
      }
    }

    /** What a query over the cell range from `i1` to `i2` reports, read
        off the records: while the grid is consistent, a client is reported
        exactly when it is linked and its recorded range shares a cell with
        the query's range. */
    lemma ScanFindsOverlapping(cl: seq<Client<E>>, q: nat, i1: Cell, i2: Cell, c: ClientId)
      requires Consistent(cl, q)
      requires cells.Length0 == dimensions.x && cells.Length1 == dimensions.y
      requires 0 <= i1.x < dimensions.x && 0 <= i2.x < dimensions.x && 0 <= i1.y < dimensions.y && 0 <= i2.y < dimensions.y
      ensures c in Dedup(ScanBox(i1.x, i2.x + 1, i1.y, i2.y + 1)) <==>
        c < |cl| && cl[c].cells.Some? && Overlap(cl[c].cells.value.min, cl[c].cells.value.max, i1, i2)
    {
      DedupMember(ScanBox(i1.x, i2.x + 1, i1.y, i2.y + 1), c);
      if c in ScanBox(i1.x, i2.x + 1, i1.y, i2.y + 1) {
        ScannedOverlaps(cl, q, i1, i2, c);
      }
      if c < |cl| && cl[c].cells.Some? && Overlap(cl[c].cells.value.min, cl[c].cells.value.max, i1, i2) {
        OverlappingScanned(cl, q, i1, i2, c);
      }
    }

    /** A client met by the scan of the range from `i1` to `i2` has a
        recorded range sharing a cell with it. */
    lemma ScannedOverlaps(cl: seq<Client<E>>, q: nat, i1: Cell, i2: Cell, c: ClientId)
      requires Consistent(cl, q)
      requires 0 <= i1.x < cells.Length0 && 0 <= i2.x < cells.Length0 && 0 <= i1.y < cells.Length1 && 0 <= i2.y < cells.Length1
      requires c in ScanBox(i1.x, i2.x + 1, i1.y, i2.y + 1)
      ensures c < |cl| && cl[c].cells.Some? && Overlap(cl[c].cells.value.min, cl[c].cells.value.max, i1, i2)
    {
      ScanBoxMembers(i1.x, i2.x + 1, i1.y, i2.y + 1, c);
      var x, y :| i1.x <= x < i2.x + 1 && i1.y <= y < i2.y + 1 && c in cells[x, y];
      LinkedOverlaps(cl, q, i1, i2, c, x, y);
    }

    /** A client whose recorded range shares a cell with the range from
        `i1` to `i2` is met by the scan of that range. */
    lemma OverlappingScanned(cl: seq<Client<E>>, q: nat, i1: Cell, i2: Cell, c: ClientId)
      requires Consistent(cl, q)
      requires cells.Length0 == dimensions.x && cells.Length1 == dimensions.y
      requires 0 <= i1.x < dimensions.x && 0 <= i2.x < dimensions.x && 0 <= i1.y < dimensions.y && 0 <= i2.y < dimensions.y
      requires c < |cl| && cl[c].cells.Some? && Overlap(cl[c].cells.value.min, cl[c].cells.value.max, i1, i2)
      ensures c in ScanBox(i1.x, i2.x + 1, i1.y, i2.y + 1)
    {
      OverlappingLinked(cl, q, i1, i2, c);
      ScanBoxMembers(i1.x, i2.x + 1, i1.y, i2.y + 1, c);
    }

    /** A client linked into a cell of the range from `i1` to `i2` has a
        recorded range sharing a cell with it. */
    lemma LinkedOverlaps(cl: seq<Client<E>>, q: nat, i1: Cell, i2: Cell, c: ClientId, x: int, y: int)
      requires Consistent(cl, q)
      requires i1.x <= x <= i2.x && i1.y <= y <= i2.y && 0 <= x < cells.Length0 && 0 <= y < cells.Length1
      requires c in cells[x, y]
      ensures c < |cl| && cl[c].cells.Some? && Overlap(cl[c].cells.value.min, cl[c].cells.value.max, i1, i2)
    {
      assert CellAgrees(cl, cells[x, y], x, y);
    }

    /** A linked client whose recorded range shares a cell with the range
        from `i1` to `i2` is linked into a cell of that range. */
    lemma OverlappingLinked(cl: seq<Client<E>>, q: nat, i1: Cell, i2: Cell, c: ClientId)
      requires Consistent(cl, q)
      requires cells.Length0 == dimensions.x && cells.Length1 == dimensions.y
      requires 0 <= i1.x < dimensions.x && 0 <= i2.x < dimensions.x && 0 <= i1.y < dimensions.y && 0 <= i2.y < dimensions.y
      requires c < |cl| && cl[c].cells.Some? && Overlap(cl[c].cells.value.min, cl[c].cells.value.max, i1, i2)
      ensures exists x, y :: i1.x <= x < i2.x + 1 && i1.y <= y < i2.y + 1 && c in cells[x, y]
    {
      var p := cl[c].cells.value;
      var x := if p.min.x < i1.x then i1.x else p.min.x;
      var y := if p.min.y < i1.y then i1.y else p.min.y;
      assert PlacementInGrid(cl[c].cells, dimensions);
      assert CellAgrees(cl, cells[x, y], x, y);
    }

    /** Stamping the reported clients does not change which clients a
        query reports: it still reports exactly the linked clients whose
        range shares a cell with the query's. */
    lemma StampedFindsOverlapping(before: seq<Client<E>>, after: seq<Client<E>>, result: seq<ClientId>, q: nat, i1: Cell, i2: Cell)
      requires Consistent(before, q)
      requires cells.Length0 == dimensions.x && cells.Length1 == dimensions.y
      requires 0 <= i1.x < dimensions.x && 0 <= i2.x < dimensions.x && 0 <= i1.y < dimensions.y && 0 <= i2.y < dimensions.y
      requires result == Dedup(ScanBox(i1.x, i2.x + 1, i1.y, i2.y + 1)) && Stamped(after, before, result, q)
      ensures forall c: ClientId :: c in result <==>
        c < |after| && after[c].cells.Some? && Overlap(after[c].cells.value.min, after[c].cells.value.max, i1, i2)
    {
      StampedOnlyStamps(after, before, result, q);
      forall c: ClientId
        ensures c in result <==>
          c < |after| && after[c].cells.Some? && Overlap(after[c].cells.value.min, after[c].cells.value.max, i1, i2)
      {
        ScanFindsOverlapping(before, q, i1, i2, c);
        assert c < |after| ==> after[c].cells == before[c].cells;
      }
    }

    /** Every client linked into a cell of a consistent grid has a
        record. */
    lemma LinkedHaveRecords(cl: seq<Client<E>>, q: nat)
      requires Consistent(cl, q)
      ensures forall x, y, v :: 0 <= x < cells.Length0 && 0 <= y < cells.Length1 && v in cells[x, y] ==> v < |cl|
    {
      forall x, y, v | 0 <= x < cells.Length0 && 0 <= y < cells.Length1 && v in cells[x, y]
        ensures v < |cl|
      {
        assert CellAgrees(cl, cells[x, y], x, y);
      }
    }

    /** The scan of the cell range a query covers is what `Near` reports. */
    lemma ScanIsNear(position: Vec2, extent: Vec2, result: seq<ClientId>)
      requires WellFormed(bounds, dimensions) && cells.Length0 == dimensions.x && cells.Length1 == dimensions.y
      requires var r := CellRange(bounds, dimensions, position, extent);
        result == Dedup(ScanBox(r.0.x, r.1.x + 1, r.0.y, r.1.y + 1))
      ensures result == Near(position, extent)
    {
    }

    /** Once a scan of the cell range from `i1` to `i2` has stamped what it
        reports, the grid is consistent again under the next query id, and
        the report holds exactly the clients whose range overlaps the
        scanned one. */
    lemma ScanFinished(before: seq<Client<E>>, after: seq<Client<E>>, result: seq<ClientId>, q: nat, i1: Cell, i2: Cell)
      requires cells.Length0 == dimensions.x && cells.Length1 == dimensions.y
      requires 0 <= i1.x < dimensions.x && 0 <= i2.x < dimensions.x && 0 <= i1.y < dimensions.y && 0 <= i2.y < dimensions.y
      requires Consistent(before, q)
      requires result == Dedup(ScanBox(i1.x, i2.x + 1, i1.y, i2.y + 1)) && Stamped(after, before, result, q)
      ensures Consistent(after, q + 1)
      ensures forall c: ClientId :: c in result <==>
        c < |after| && after[c].cells.Some? && Overlap(after[c].cells.value.min, after[c].cells.value.max, i1, i2)
    {
      StampedFindsOverlapping(before, after, result, q, i1, i2);
      StampedRestamps(after, before, result, q);
      Restamp(before, after, q);
    }

    /** One cell of a `FindNear` scan: walk the cell's list from its head
        and report each client not yet stamped with `queryId`, stamping it.
        `result` grows from the deduplication of what was scanned before to
        the deduplication of that followed by this cell's list. */
    method ScanCell(list: seq<ClientId>, queryId: nat, ghost before: seq<Client<E>>,
                    result0: seq<ClientId>, ghost scanned: seq<ClientId>) returns (result: seq<ClientId>)
      requires forall v :: v in list ==> v < |before|
      requires forall c :: 0 <= c < |before| ==> before[c].queryId < queryId
      requires result0 == Dedup(scanned) && Stamped(clients, before, result0, queryId)
      modifies this`clients
      ensures queryIds == old(queryIds)
      ensures result == Dedup(scanned + list) && Stamped(clients, before, result, queryId)
    {
      var cl := clients;
      result := result0;
      var k := 0;
      assert scanned + list[..0] == scanned;
      while k < |list|
        invariant 0 <= k <= |list|
        invariant result == Dedup(scanned + list[..k])
        invariant Stamped(cl, before, result, queryId)
        modifies {}
      {
        var v := list[k];
        assert v in list;
        ScanStep(cl, before, result, queryId, scanned, list, k);
        if cl[v].queryId != queryId {
          cl := cl[v := cl[v].(queryId := queryId)];
          result := result + [v];
        }
        k := k + 1;
      }
      assert list[..k] == list;
      clients := cl;
    }

    /** One column of a `FindNear` scan: the cells `(x, y0)` to
        `(x, y1 - 1)`, in that order. */
    method ScanColumnCells(x: int, y0: int, y1: int, queryId: nat, ghost before: seq<Client<E>>,
                           result0: seq<ClientId>, ghost scanned: seq<ClientId>) returns (result: seq<ClientId>)
      requires 0 <= x < cells.Length0 && 0 <= y0 <= cells.Length1 && y1 <= cells.Length1
      requires forall y, v :: 0 <= y < cells.Length1 && v in cells[x, y] ==> v < |before|
      requires forall c :: 0 <= c < |before| ==> before[c].queryId < queryId
      requires result0 == Dedup(scanned) && Stamped(clients, before, result0, queryId)
      modifies this`clients
      ensures queryIds == old(queryIds)
      ensures result == Dedup(scanned + ScanColumn(x, y0, y1)) && Stamped(clients, before, result, queryId)
    {
      result := result0;
      var yEnd := if y1 < y0 then y0 else y1;
      var y := y0;
      ghost var done: seq<ClientId> := [];
      assert scanned + done == scanned;
      while y < yEnd
        invariant y0 <= y <= yEnd
        invariant done == ScanColumn(x, y0, y)
        invariant result == Dedup(scanned + done) && Stamped(clients, before, result, queryId)
      {
        var list := cells[x, y];
        assert forall v :: v in list ==> v < |before|;
        result := ScanCell(list, queryId, before, result, scanned + done);
        AppendAssoc(scanned, done, list);
        done := done + list;
        y := y + 1;
      }
      assert ScanColumn(x, y0, yEnd) == ScanColumn(x, y0, y1);
    }

    /** The whole `FindNear` scan over the columns `x0` to `x1 - 1`, each
        over the rows `y0` to `y1 - 1`, starting from the records `before`
        and an empty result. */
    method ScanBoxCells(x0: int, x1: int, y0: int, y1: int, queryId: nat, ghost before: seq<Client<E>>)
      returns (result: seq<ClientId>)
      requires 0 <= x0 <= cells.Length0 && x1 <= cells.Length0 && 0 <= y0 <= cells.Length1 && y1 <= cells.Length1
      requires forall x, y, v :: 0 <= x < cells.Length0 && 0 <= y < cells.Length1 && v in cells[x, y] ==> v < |before|
      requires forall c :: 0 <= c < |before| ==> before[c].queryId < queryId
      requires clients == before
      modifies this`clients
      ensures queryIds == old(queryIds)
      ensures result == Dedup(ScanBox(x0, x1, y0, y1)) && Stamped(clients, before, result, queryId)
    {
      result := [];
      ghost var scanned: seq<ClientId> := [];
      var xEnd := if x1 < x0 then x0 else x1;
      var x := x0;
      while x < xEnd
        invariant x0 <= x <= xEnd
        invariant scanned == ScanBox(x0, x, y0, y1)
        invariant result == Dedup(scanned) && Stamped(clients, before, result, queryId)
      {
        result := ScanColumnCells(x, y0, y1, queryId, before, result, scanned);
        scanned := scanned + ScanColumn(x, y0, y1);
        x := x + 1;
      }
      assert ScanBox(x0, xEnd, y0, y1) == ScanBox(x0, x1, y0, y1);
    }

    /** `FindNear`: every client linked into a cell of the range covered by
        the box of size `extent` centred on `position`, each once, in the
        order of first encounter. The query takes a fresh id from
        `_queryIds` and stamps it on each client it reports; nothing else
        about the clients changes. */
    method FindNear(position: Vec2, extent: Vec2) returns (result: seq<ClientId>)
      requires Valid()
      modifies this
      ensures Valid()
      ensures queryIds == old(queryIds) + 1
      ensures result == Near(position, extent)
      ensures Stamped(clients, old(clients), result, old(queryIds))
      ensures var r := CellRange(bounds, dimensions, position, extent);
        forall c: ClientId :: c in result <==>
          c < |clients| && clients[c].cells.Some? && Overlap(clients[c].cells.value.min, clients[c].cells.value.max, r.0, r.1)
    {
      var r := CellRange(bounds, dimensions, position, extent);
      ghost var before := clients;
      var queryId := queryIds;
      LinkedHaveRecords(before, queryId);
      queryIds := queryIds + 1;
      result := ScanBoxCells(r.0.x, r.1.x + 1, r.0.y, r.1.y + 1, queryId, before);
      ScanFinished(before, clients, result, queryId, r.0, r.1);
      ScanIsNear(position, extent, result);
    }
  }
}
