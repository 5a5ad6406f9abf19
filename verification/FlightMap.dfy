/** The local flight map: occupied cells are inflated by the vehicle's exclusion disc, and a
    trajectory is checked against the result. */
module FlightMap {
  import opened Wrappers
  import opened Grid

  datatype Cell = Cell(occupiedScore: real, riskScore: real, occupied: bool, blocked: bool)

  datatype Shape = Shape(cellSize: real, forward: real, rear: real, lateral: real, nx: nat, ny: nat)

  /** Grid dimensions from the ranges, at least one cell each way. */
  function ShapeOf(cellSize: real, forward: real, rear: real, lateral: real): (g: Shape)
    requires cellSize > 0.0
    ensures g.nx >= 1 && g.ny >= 1
  {
    var nx, ny := CeilDiv(forward + rear, cellSize), CeilDiv(2.0 * lateral, cellSize);
    Shape(cellSize, forward, rear, lateral, if nx < 1 then 1 else nx, if ny < 1 then 1 else ny)
  }

  predicate In(g: Shape, x: int, y: int) {
    0 <= x < g.nx && 0 <= y < g.ny
  }

  function Flat(g: Shape, x: int, y: int): (p: int)
    ensures In(g, x, y) ==> 0 <= p < g.ny * g.nx
  {
    if In(g, x, y) then DigitsInRange(y, x, g.ny, g.nx); y * g.nx + x else y * g.nx + x
  }

  lemma FlatInjective(g: Shape, x: int, y: int, u: int, w: int)
    requires In(g, x, y) && In(g, u, w) && Flat(g, x, y) == Flat(g, u, w)
    ensures x == u && y == w
  {
    DigitsUnique(y, x, w, u, g.nx);
  }

  function RadiusCells(radius: real, cellSize: real): nat
    requires cellSize > 0.0
  {
    if radius <= 0.0 then 0
    else var n := CeilDiv(radius, cellSize); if n < 0 then 0 else n
  }

  predicate InDisc(dx: int, dy: int, r: int) {
    dx * dx + dy * dy <= r * r
  }

  /** Cell (x, y) is within the disc of some occupied cell of the grid. */
  ghost predicate InDilation(g: Shape, cells: seq<Cell>, r: int, x: int, y: int)
    requires |cells| == g.ny * g.nx
  {
    exists u, w :: In(g, u, w) && cells[Flat(g, u, w)].occupied && InDisc(x - u, y - w, r)
  }

  lemma DiscRow(dx: int, dy: int, r: int)
    requires r >= 0 && InDisc(dx, dy, r)
    ensures -r <= dx <= r && -r <= dy <= r
  {
    SquareBound(dx, dy * dy, r);
    SquareBound(dy, dx * dx, r);
  }

  lemma SquareBound(d: int, rest: int, r: int)
    requires r >= 0 && d * d + rest <= r * r && rest >= 0
    ensures -r <= d <= r
  {
    PositiveProduct(d - r, d + r);
    PositiveProduct(-d - r, -d + r);
    assert (d - r) * (d + r) == d * d - r * r == (-d - r) * (-d + r);
  }

  lemma PositiveProduct(a: int, b: int)
    ensures a > 0 && b > 0 ==> a * b > 0
  {}

  class LocalFlightMap {
    const g: Shape
    const cells: array<Cell>

    ghost predicate Valid()
      reads this
    {
      g.cellSize > 0.0 && cells.Length == g.ny * g.nx
    }

    constructor (cellSize: real, forward: real, rear: real, lateral: real)
      ensures Valid() && fresh(cells)
      ensures g == ShapeOf(if cellSize > 0.0 then cellSize else 0.5, if forward > 0.0 then forward else 30.0,
                           if rear < 0.0 then 0.0 else rear, if lateral > 0.0 then lateral else 15.0)
    {
      var shape := ShapeOf(if cellSize > 0.0 then cellSize else 0.5, if forward > 0.0 then forward else 30.0,
                           if rear < 0.0 then 0.0 else rear, if lateral > 0.0 then lateral else 15.0);
      g := shape;
      cells := new Cell[shape.ny * shape.nx](_ => Cell(0.0, 0.0, false, false));
    }

    method ClassifyCells(occupiedThreshold: real, riskThreshold: real)
      requires Valid()
      modifies cells
      ensures forall i :: 0 <= i < cells.Length ==>
                var c := old(cells[i]);
                cells[i] == Cell(c.occupiedScore, c.riskScore,
                                 c.occupiedScore >= occupiedThreshold || c.riskScore >= riskThreshold, false)
    {
      for i := 0 to cells.Length
        invariant forall j :: i <= j < cells.Length ==> cells[j] == old(cells[j])
        invariant forall j :: 0 <= j < i ==>
                    var c := old(cells[j]);
                    cells[j] == Cell(c.occupiedScore, c.riskScore,
                                     c.occupiedScore >= occupiedThreshold || c.riskScore >= riskThreshold, false)
      {
        var c := cells[i];
        cells[i] := c.(occupied := c.occupiedScore >= occupiedThreshold || c.riskScore >= riskThreshold, blocked := false);
      }
    }

    /** Nothing but blocked flags has changed. */
    twostate predicate OnlyFlags()
      reads this, cells
    {
      forall i :: 0 <= i < cells.Length ==> cells[i] == old(cells[i]).(blocked := cells[i].blocked)
    }

    /** Blocks the cells of one row of a disc around (u, w). */
    method StampRow(u: int, w: int, r: int, dy: int)
      requires Valid() && r >= 0
      modifies cells
      ensures OnlyFlags()
      ensures forall x, y :: In(g, x, y) ==>
                (cells[Flat(g, x, y)].blocked <==> old(cells[Flat(g, x, y)].blocked) || (y - w == dy && InDisc(x - u, dy, r)))
    {
      hide Flat, InDisc;
      var dx := -r;
      while dx <= r
        invariant -r <= dx <= r + 1 && OnlyFlags()
        invariant forall x, y :: In(g, x, y) ==>
                    (cells[Flat(g, x, y)].blocked <==>
                     old(cells[Flat(g, x, y)].blocked) || (y - w == dy && x - u < dx && -r <= x - u && InDisc(x - u, dy, r)))
      {
        if InDisc(dx, dy, r) && In(g, u + dx, w + dy) {
          forall x, y | In(g, x, y) && Flat(g, x, y) == Flat(g, u + dx, w + dy)
            ensures x == u + dx && y == w + dy
          {
            FlatInjective(g, x, y, u + dx, w + dy);
          }
          cells[Flat(g, u + dx, w + dy)] := cells[Flat(g, u + dx, w + dy)].(blocked := true);
        }
        dx := dx + 1;
      }
      forall x, y | In(g, x, y) && InDisc(x - u, dy, r)
        ensures -r <= x - u <= r
      {
        DiscRow(x - u, dy, r);
      }
    }

    /** Blocks the disc around (u, w). */
    method StampDisc(u: int, w: int, r: int)
      requires Valid() && r >= 0
      modifies cells
      ensures OnlyFlags()
      ensures forall x, y :: In(g, x, y) ==>
                (cells[Flat(g, x, y)].blocked <==> old(cells[Flat(g, x, y)].blocked) || InDisc(x - u, y - w, r))
    {
      hide Flat, InDisc;
      var dy := -r;
      while dy <= r
        invariant -r <= dy <= r + 1 && OnlyFlags()
        invariant forall x, y :: In(g, x, y) ==>
                    (cells[Flat(g, x, y)].blocked <==>
                     old(cells[Flat(g, x, y)].blocked) || (-r <= y - w < dy && InDisc(x - u, y - w, r)))
      {
        StampRow(u, w, r, dy);
        dy := dy + 1;
      }
      forall x, y | In(g, x, y) && InDisc(x - u, y - w, r)
        ensures -r <= y - w <= r
      {
        DiscRow(x - u, y - w, r);
      }
    }

    /** Indices of the occupied cells, row by row. */
    method OccupiedIndices() returns (found: seq<(int, int)>)
      requires Valid()
      ensures forall p :: p in found <==> In(g, p.0, p.1) && cells[Flat(g, p.0, p.1)].occupied
    {
      hide Flat;
      found := [];
      for y := 0 to g.ny
        invariant forall p :: p in found <==> In(g, p.0, p.1) && p.1 < y && cells[Flat(g, p.0, p.1)].occupied
      {
        for x := 0 to g.nx
          invariant forall p :: p in found <==>
                      In(g, p.0, p.1) && (p.1 < y || (p.1 == y && p.0 < x)) && cells[Flat(g, p.0, p.1)].occupied
        {
          if cells[Flat(g, x, y)].occupied {
            found := found + [(x, y)];
          }
        }
      }
    }

    /** Blocks exactly the dilation of the occupied cells by the inflation disc. */
    method InflateBlockedCells(vehicleRadius: real, margin: real)
      requires Valid() && forall i :: 0 <= i < cells.Length ==> !cells[i].blocked
      modifies cells
      ensures OnlyFlags()
      ensures var r := RadiusCells(if vehicleRadius + margin > 0.0 then vehicleRadius + margin else 0.0, g.cellSize);
              forall x, y :: In(g, x, y) ==> (cells[Flat(g, x, y)].blocked <==> InDilation(g, old(cells[..]), r, x, y))
    {
      hide Flat, InDilation, RadiusCells;
      var r: int := RadiusCells(if vehicleRadius + margin > 0.0 then vehicleRadius + margin else 0.0, g.cellSize);
      ghost var before := cells[..];
      if r <= 0 {
        BlockOccupied();
        PointDisc(g, before);
      } else {
        StampAll(r);
      }
    }

    /** Blocks the occupied cells themselves. */
    method BlockOccupied()
      requires Valid()
      modifies cells
      ensures OnlyFlags()
      ensures forall x, y :: In(g, x, y) ==> (cells[Flat(g, x, y)].blocked <==> old(cells[Flat(g, x, y)].occupied))
    {
      hide Flat;
      for i := 0 to cells.Length
        invariant forall j :: i <= j < cells.Length ==> cells[j] == old(cells[j])
        invariant forall j :: 0 <= j < i ==> cells[j] == old(cells[j]).(blocked := old(cells[j]).occupied)
      {
        cells[i] := cells[i].(blocked := cells[i].occupied);
      }
    }

    /** Blocks the disc around every occupied cell. */
    method StampAll(r: int)
      requires Valid() && r >= 0 && forall i :: 0 <= i < cells.Length ==> !cells[i].blocked
      modifies cells
      ensures OnlyFlags()
      ensures forall x, y :: In(g, x, y) ==> (cells[Flat(g, x, y)].blocked <==> InDilation(g, old(cells[..]), r, x, y))
    {
      hide Flat, InDisc, InDilation;
      ghost var before := cells[..];
      var found := OccupiedIndices();
      for n := 0 to |found|
        invariant OnlyFlags()
        invariant forall x, y :: In(g, x, y) ==> (cells[Flat(g, x, y)].blocked <==> Stamped(found[..n], r, x, y))
      {
        StampDisc(found[n].0, found[n].1, r);
        forall x, y ensures Stamped(found[..n + 1], r, x, y) <==> Stamped(found[..n], r, x, y) || InDisc(x - found[n].0, y - found[n].1, r) {
          StampedOneMore(found, n, r, x, y);
        }
      }
      assert found[..|found|] == found;
      forall x, y | In(g, x, y)
        ensures Stamped(found, r, x, y) <==> InDilation(g, before, r, x, y)
      {
        FoundDilation(g, before, r, found, x, y);
      }
    }
  }

  /** Cell (x, y) is within the disc of one of these cells. */
  ghost predicate Stamped(found: seq<(int, int)>, r: int, x: int, y: int) {
    exists j :: 0 <= j < |found| && InDisc(x - found[j].0, y - found[j].1, r)
  }

  lemma StampedOneMore(found: seq<(int, int)>, n: nat, r: int, x: int, y: int)
    requires n < |found|
    ensures Stamped(found[..n + 1], r, x, y) <==> Stamped(found[..n], r, x, y) || InDisc(x - found[n].0, y - found[n].1, r)
  {
    hide InDisc;
    if Stamped(found[..n], r, x, y) {
      var j :| 0 <= j < n && InDisc(x - found[..n][j].0, y - found[..n][j].1, r);
      assert found[..n + 1][j] == found[..n][j];
    }
    assert found[..n + 1][n] == found[n];
  }

  /** The disc of radius zero is the cell itself. */
  lemma PointDisc(g: Shape, cells: seq<Cell>)
    requires |cells| == g.ny * g.nx
    ensures forall x, y :: In(g, x, y) ==> (InDilation(g, cells, 0, x, y) <==> cells[Flat(g, x, y)].occupied)
  {
    hide Flat;
    forall x, y | In(g, x, y)
      ensures InDilation(g, cells, 0, x, y) <==> cells[Flat(g, x, y)].occupied
    {
      if InDilation(g, cells, 0, x, y) {
        var u, w :| In(g, u, w) && cells[Flat(g, u, w)].occupied && InDisc(x - u, y - w, 0);
        DiscRow(x - u, y - w, 0);
      }
      assert InDisc(x - x, y - y, 0);
    }
  }

  lemma FoundDilation(g: Shape, cells: seq<Cell>, r: int, found: seq<(int, int)>, x: int, y: int)
    requires |cells| == g.ny * g.nx
    requires forall p :: p in found <==> In(g, p.0, p.1) && cells[Flat(g, p.0, p.1)].occupied
    ensures Stamped(found, r, x, y) <==> InDilation(g, cells, r, x, y)
  {
    hide Flat, InDisc;
    if j :| 0 <= j < |found| && InDisc(x - found[j].0, y - found[j].1, r) {
      assert found[j] in found;
    }
    if InDilation(g, cells, r, x, y) {
      var u, w :| In(g, u, w) && cells[Flat(g, u, w)].occupied && InDisc(x - u, y - w, r);
      assert (u, w) in found;
    }
  }

  // ---------------------------------------------------------------- clearance

  function CellCentre(g: Shape, x: int, y: int): (real, real) {
    (-g.rear + (x as real + 0.5) * g.cellSize, -g.lateral + (y as real + 0.5) * g.cellSize)
  }

  function DistSq(a: (real, real), b: (real, real)): real {
    Square(a.0 - b.0) + Square(a.1 - b.1)
  }

  /** The disc is generous enough: every cell whose centre is within the exclusion radius of an
      occupied cell's centre is in the dilation. */
  lemma ExclusionZoneIsBlocked(g: Shape, cells: seq<Cell>, radius: real, x: int, y: int, u: int, w: int)
    requires g.cellSize > 0.0 && |cells| == g.ny * g.nx && In(g, u, w) && cells[Flat(g, u, w)].occupied
    requires radius >= 0.0 && DistSq(CellCentre(g, x, y), CellCentre(g, u, w)) <= Square(radius)
    ensures InDilation(g, cells, RadiusCells(radius, g.cellSize), x, y)
  {
    hide Flat, InDisc, RadiusCells;
    var r, s := RadiusCells(radius, g.cellSize), g.cellSize;
    CentreDistance(g, x, y, u, w);
    RadiusCovers(radius, s);
    SquareMono(radius, Edge(r, s));
    EdgesSquared(x - u, y - w, r, s);
    assert InDisc(x - u, y - w, r);
  }

  /** The disc is no larger than it has to be: a blocked cell's centre is within the exclusion radius
      and less than one cell more of an occupied centre. */
  lemma BlockedIsNear(g: Shape, cells: seq<Cell>, radius: real, x: int, y: int) returns (u: int, w: int)
    requires g.cellSize > 0.0 && |cells| == g.ny * g.nx && radius > 0.0
    requires InDilation(g, cells, RadiusCells(radius, g.cellSize), x, y)
    ensures In(g, u, w) && cells[Flat(g, u, w)].occupied
    ensures DistSq(CellCentre(g, x, y), CellCentre(g, u, w)) < Square(radius + g.cellSize)
  {
    hide Flat, InDisc, RadiusCells, Square;
    var r, s := RadiusCells(radius, g.cellSize), g.cellSize;
    u, w :| In(g, u, w) && cells[Flat(g, u, w)].occupied && InDisc(x - u, y - w, r);
    CentreDistance(g, x, y, u, w);
    DiscInMetres(x - u, y - w, r, s);
    RadiusIsTight(radius, s);
    SquareStrict(Edge(r, s), radius + s);
  }

  lemma RadiusIsTight(radius: real, s: real)
    requires s > 0.0 && radius > 0.0
    ensures 0.0 <= Edge(RadiusCells(radius, s), s) < radius + s
  {
    hide Edge, CeilDiv;
    var n := CeilDiv(radius, s);
    EdgeStep(n - 1, s);
    assert Edge(0, s) == 0.0 by { EdgeAdd(0, 0, s); }
    EdgeMono(n, 0, s);
    EdgeMono(0, n, s);
  }

  lemma SquareStrict(a: real, b: real)
    requires 0.0 <= a < b
    ensures Square(a) < Square(b)
  {
    RootsOrdered(a, b);
  }

  lemma DiscInMetres(dx: int, dy: int, r: int, s: real)
    requires s > 0.0 && InDisc(dx, dy, r)
    ensures Square(Edge(dx, s)) + Square(Edge(dy, s)) <= Square(Edge(r, s))
  {
    hide Edge, Square;
    EdgeSquared(dx, s);
    EdgeSquared(dy, s);
    EdgeSquared(r, s);
    InDiscIs(dx, dy, r);
    SpacingSquared(s);
    EdgeAdd(dx * dx, dy * dy, Square(s));
    EdgeMono(dx * dx + dy * dy, r * r, Square(s));
  }

  lemma SpacingSquared(s: real)
    requires s > 0.0
    ensures Square(s) > 0.0
  {}

  lemma CentreDistance(g: Shape, x: int, y: int, u: int, w: int)
    ensures DistSq(CellCentre(g, x, y), CellCentre(g, u, w)) == Square(Edge(x - u, g.cellSize)) + Square(Edge(y - w, g.cellSize))
  {
    assert CellCentre(g, x, y).0 - CellCentre(g, u, w).0 == Edge(x - u, g.cellSize);
    assert CellCentre(g, x, y).1 - CellCentre(g, u, w).1 == Edge(y - w, g.cellSize);
  }

  lemma RadiusCovers(radius: real, s: real)
    requires s > 0.0 && radius >= 0.0
    ensures radius <= Edge(RadiusCells(radius, s), s)
  {
    hide Edge, CeilDiv;
    assert Edge(0, s) == 0.0 by { EdgeAdd(0, 0, s); }
    if radius > 0.0 {
      EdgeMono(CeilDiv(radius, s), 0, s);
    }
  }

  lemma SquareMono(a: real, b: real)
    requires 0.0 <= a <= b
    ensures Square(a) <= Square(b)
  {
    assert Times(b - a, b + a) == Times(b, b) - Times(a, a);
    TimesSign(b - a, b + a);
  }

  lemma EdgesSquared(dx: int, dy: int, r: int, s: real)
    requires s > 0.0 && Square(Edge(dx, s)) + Square(Edge(dy, s)) <= Square(Edge(r, s))
    ensures InDisc(dx, dy, r)
  {
    hide Square, Edge, InDisc;
    EdgeSquared(dx, s);
    EdgeSquared(dy, s);
    EdgeSquared(r, s);
    EdgeAdd(dx * dx, dy * dy, Square(s));
    EdgeMono(dx * dx + dy * dy, r * r, Square(s));
    InDiscIs(dx, dy, r);
  }

  lemma InDiscIs(dx: int, dy: int, r: int)
    ensures InDisc(dx, dy, r) <==> dx * dx + dy * dy <= r * r
  {}

  lemma EdgeSquared(k: int, s: real)
    ensures Square(Edge(k, s)) == Edge(k * k, Square(s))
  {
    assert (k * k) as real == k as real * k as real;
  }

  // ---------------------------------------------------------------- trajectory check

  /** Cell of a position, if it is on the grid. */
  function LocalToGrid(g: Shape, p: (real, real)): Option<(int, int)> {
    if g.cellSize <= 0.0 || g.nx <= 0 || g.ny <= 0 then None
    else if p.0 < -g.rear || p.0 >= g.forward || p.1 < -g.lateral || p.1 >= g.lateral then None
    else
      var x, y := FloorDiv(p.0 + g.rear, g.cellSize), FloorDiv(p.1 + g.lateral, g.cellSize);
      if In(g, x, y) then Some((x, y)) else None
  }

  /** A position is on cell (x, y) exactly when it is within the ranges and the cell's square holds
      it, its lower edges included. */
  lemma OnCellIff(g: Shape, p: (real, real), x: int, y: int)
    requires g.cellSize > 0.0 && In(g, x, y)
    ensures LocalToGrid(g, p) == Some((x, y)) <==>
            && -g.rear <= p.0 < g.forward && -g.lateral <= p.1 < g.lateral
            && Edge(x, g.cellSize) <= p.0 + g.rear < Edge(x + 1, g.cellSize)
            && Edge(y, g.cellSize) <= p.1 + g.lateral < Edge(y + 1, g.cellSize)
  {
    hide Edge, FloorDiv;
    OnSlabIff(p.0 + g.rear, g.cellSize, x);
    OnSlabIff(p.1 + g.lateral, g.cellSize, y);
  }

  lemma OnSlabIff(v: real, s: real, k: int)
    requires s > 0.0
    ensures FloorDiv(v, s) == k <==> Edge(k, s) <= v < Edge(k + 1, s)
  {
    hide Edge, FloorDiv;
    if Edge(k, s) <= v < Edge(k + 1, s) {
      FloorDivUnique(v, s, k);
    }
  }

  /** Cells survive the round trip through their centre, wherever that is within the ranges. */
  lemma CellOfCentre(g: Shape, x: int, y: int)
    requires g.cellSize > 0.0 && In(g, x, y)
    requires var c := CellCentre(g, x, y); c.0 < g.forward && c.1 < g.lateral
    ensures LocalToGrid(g, CellCentre(g, x, y)) == Some((x, y))
  {
    hide FloorDiv;
    OnCellIff(g, CellCentre(g, x, y), x, y);
    CentreOnSlab(x, g.cellSize);
    CentreOnSlab(y, g.cellSize);
    assert CellCentre(g, x, y).0 + g.rear == Mid(x, g.cellSize) && CellCentre(g, x, y).1 + g.lateral == Mid(y, g.cellSize);
  }

  lemma CentreOnSlab(k: int, s: real)
    requires s > 0.0
    ensures Edge(k, s) < Mid(k, s) < Edge(k + 1, s)
    ensures k >= 0 ==> Mid(k, s) > 0.0
  {
    hide Edge, Mid;
    MidOfSlab(k, s);
    EdgeStep(k, s);
    assert Edge(0, s) == 0.0 by { EdgeAdd(0, 0, s); }
    EdgeMono(0, k, s);
  }

  /** The grid covers the ranges: a position is on it exactly when it is within them. */
  lemma GridCoversRanges(cellSize: real, forward: real, rear: real, lateral: real, p: (real, real))
    requires cellSize > 0.0
    ensures LocalToGrid(ShapeOf(cellSize, forward, rear, lateral), p).Some? <==>
            -rear <= p.0 < forward && -lateral <= p.1 < lateral
  {
    hide Edge, FloorDiv, CeilDiv;
    if -rear <= p.0 < forward && -lateral <= p.1 < lateral {
      SlabBelow(p.0 + rear, forward + rear, cellSize);
      SlabBelow(p.1 + lateral, 2.0 * lateral, cellSize);
    }
  }

  lemma SlabBelow(v: real, top: real, s: real)
    requires s > 0.0 && 0.0 <= v < top
    ensures 0 <= FloorDiv(v, s) < CeilDiv(top, s)
  {
    hide Edge, FloorDiv, CeilDiv;
    assert Edge(0, s) == 0.0 by { EdgeAdd(0, 0, s); }
    EdgeMono(FloorDiv(v, s) + 1, 0, s);
    EdgeMono(CeilDiv(top, s), FloorDiv(v, s), s);
  }

  /** A sample is on a blocked cell of the snapshot. */
  predicate HitsBlocked(g: Shape, cells: seq<Cell>, p: (real, real)) {
    match LocalToGrid(g, p)
    case None => false
    case Some((x, y)) => 0 <= Flat(g, x, y) < |cells| && cells[Flat(g, x, y)].blocked
  }

  datatype Verdict = Verdict(valid: bool, blocked: bool, clear: bool, count: nat, first: nat)

  function CountBlocked(g: Shape, cells: seq<Cell>, path: seq<(real, real)>): nat {
    if path == [] then 0
    else CountBlocked(g, cells, path[..|path| - 1]) + (if HitsBlocked(g, cells, path[|path| - 1]) then 1 else 0)
  }

  /** Blocked exactly when some sample is, with the least such index and the right count. */
  method Evaluate(g: Shape, cells: seq<Cell>, path: seq<(real, real)>) returns (v: Verdict)
    ensures v.valid <==> path != [] && g.cellSize > 0.0 && cells != []
    ensures v.clear == !v.blocked
    ensures !v.valid ==> !v.blocked && v.count == 0
    ensures v.valid ==> v.count == CountBlocked(g, cells, path)
    ensures v.valid ==> (v.blocked <==> exists i :: 0 <= i < |path| && HitsBlocked(g, cells, path[i]))
    ensures v.blocked ==> v.first < |path| && HitsBlocked(g, cells, path[v.first])
    ensures v.blocked ==> forall i :: 0 <= i < v.first ==> !HitsBlocked(g, cells, path[i])
  {
    hide HitsBlocked;
    v := Verdict(path != [] && g.cellSize > 0.0 && cells != [], false, true, 0, 0);
    if !v.valid {
      return;
    }
    for i := 0 to |path|
      invariant v.valid && v.clear == !v.blocked && v.count == CountBlocked(g, cells, path[..i])
      invariant v.blocked <==> exists j :: 0 <= j < i && HitsBlocked(g, cells, path[j])
      invariant v.blocked ==> v.first < i && HitsBlocked(g, cells, path[v.first])
      invariant v.blocked ==> forall j :: 0 <= j < v.first ==> !HitsBlocked(g, cells, path[j])
    {
      assert path[..i + 1][..i] == path[..i];
      if HitsBlocked(g, cells, path[i]) {
        v := v.(count := v.count + 1);
        if !v.blocked {
          v := v.(blocked := true, clear := false, first := i);
        }
      }
    }
    assert path[..|path|] == path;
  }

  /** On an inflated map, a valid check reports blocked exactly when some sample lies on the grid
      in a cell of the dilation. */
  lemma BlockedMeansDilation(g: Shape, before: seq<Cell>, after: seq<Cell>, r: int, p: (real, real))
    requires |before| == |after| == g.ny * g.nx
    requires forall x, y :: In(g, x, y) ==> (after[Flat(g, x, y)].blocked <==> InDilation(g, before, r, x, y))
    ensures HitsBlocked(g, after, p) <==>
            LocalToGrid(g, p).Some? && InDilation(g, before, r, LocalToGrid(g, p).value.0, LocalToGrid(g, p).value.1)
  {
    hide Flat, InDilation, FloorDiv;
  }
}
