/** Geometry of a recomputed window: the snapped block of voxels, the box that is erased, and
    what the block is guaranteed to cover. */
module EsdfWindow {
  import opened Grid
  import opened DistanceTransform
  import opened DistanceField
  import opened EsdfSpec

  function AxisCells(half: real, s: real): (n: nat)
    requires s > 0.0
    ensures n >= 1
  {
    var n := CeilDiv(2.0 * half, s);
    if n < 1 then 1 else n
  }

  /** First voxel of an axis: the window start snapped down to a grid line. */
  function AxisOrigin(c: real, n: nat, s: real): int
    requires s > 0.0
  {
    FloorDiv(c - 0.5 * Edge(n, s), s)
  }

  datatype Window = Window(centre: Vec3, horizHalf: real, vertHalf: real)

  function BlockFor(w: Window, sx: real, sz: real): Block
    requires sx > 0.0 && sz > 0.0
  {
    var nx, nz := AxisCells(w.horizHalf, sx), AxisCells(w.vertHalf, sz);
    Block(Key(AxisOrigin(w.centre.x, nx, sx), AxisOrigin(w.centre.y, nx, sx), AxisOrigin(w.centre.z, nz, sz)),
          Dims(nx, nx, nz))
  }

  function EraseBox(w: Window, sx: real, sz: real): Bounds {
    Bounds(Vec3(w.centre.x - w.horizHalf - sx, w.centre.y - w.horizHalf - sx, w.centre.z - w.vertHalf - sz),
           Vec3(w.centre.x + w.horizHalf + sx, w.centre.y + w.horizHalf + sx, w.centre.z + w.vertHalf + sz))
  }

  lemma AxisCover(c: real, half: real, s: real)
    requires s > 0.0
    ensures var n := AxisCells(half, s);
            var o := AxisOrigin(c, n, s);
            && Edge(o, s) <= c - half
            && c + half - s < Edge(o + n, s)
            && (half >= 0.0 ==> c - half - s <= Edge(o, s) + 0.5 * s && Edge(o + n, s) - 0.5 * s <= c + half + s)
  {
    hide Edge, FloorDiv, CeilDiv;
    var q := CeilDiv(2.0 * half, s);
    var n := AxisCells(half, s);
    var o := AxisOrigin(c, n, s);
    EdgeStep(q - 1, s);
    EdgeStep(o, s);
    EdgeStep(0, s);
    assert Edge(0, s) == 0.0 by { EdgeAdd(0, 0, s); }
    EdgeAdd(o, n, s);
    EdgeMono(q, n, s);
  }

  /** No stale cell survives inside the block: the erased box holds every voxel centre of it. */
  lemma BlockInsideErasedBox(w: Window, sx: real, sz: real, k: Key)
    requires sx > 0.0 && sz > 0.0 && w.horizHalf >= 0.0 && w.vertHalf >= 0.0
    requires InBlock(BlockFor(w, sx, sz), k)
    ensures InBounds(CentreOf(k, sx, sz), EraseBox(w, sx, sz))
  {
    hide AxisCells, AxisOrigin, Mid;
    AxisInsideErased(w.centre.x, w.horizHalf, sx, k.x);
    AxisInsideErased(w.centre.y, w.horizHalf, sx, k.y);
    AxisInsideErased(w.centre.z, w.vertHalf, sz, k.z);
  }

  lemma AxisInsideErased(c: real, half: real, s: real, i: int)
    requires s > 0.0 && half >= 0.0
    requires var n := AxisCells(half, s);
             AxisOrigin(c, n, s) <= i < AxisOrigin(c, n, s) + n
    ensures c - half - s <= Mid(i, s) <= c + half + s
  {
    hide Edge, AxisCells, AxisOrigin, Mid;
    var n := AxisCells(half, s);
    var o := AxisOrigin(c, n, s);
    AxisCover(c, half, s);
    MidOfSlab(i, s);
    EdgeMono(o, i, s);
    EdgeMono(i + 1, o + n, s);
    EdgeStep(i, s);
  }

  /** Bounding box of a non-empty list of positions, as the min/max loop leaves it. */
  function BoundsOf(ps: seq<Vec3>): (b: Bounds)
    requires |ps| > 0
    ensures forall i :: 0 <= i < |ps| ==> InBounds(ps[i], b)
  {
    if |ps| == 1 then Bounds(ps[0], ps[0])
    else Widened(BoundsOf(ps[..|ps| - 1]), ps[|ps| - 1])
  }

  function Widened(b: Bounds, p: Vec3): (w: Bounds)
    ensures InBounds(p, w) && forall q :: InBounds(q, b) ==> InBounds(q, w)
  {
    Bounds(Vec3(Min(b.min.x, p.x), Min(b.min.y, p.y), Min(b.min.z, p.z)),
           Vec3(Max(b.max.x, p.x), Max(b.max.y, p.y), Max(b.max.z, p.z)))
  }

  predicate Encloses(outer: Bounds, inner: Bounds) {
    InBounds(inner.min, outer) && InBounds(inner.max, outer)
  }

  /** The bounding box is the least box that holds every position. */
  lemma {:induction false} BoundsAreLeast(ps: seq<Vec3>, box: Bounds)
    requires |ps| > 0 && forall i :: 0 <= i < |ps| ==> InBounds(ps[i], box)
    ensures Encloses(box, BoundsOf(ps))
  {
    if |ps| > 1 {
      BoundsAreLeast(ps[..|ps| - 1], box);
    }
  }

  /** The window around a box: its centre, and half its extent plus a margin. */
  function WindowAround(b: Bounds, marginXy: real, marginZ: real): Window {
    Window(Vec3((b.min.x + b.max.x) * 0.5, (b.min.y + b.max.y) * 0.5, (b.min.z + b.max.z) * 0.5),
           Max((b.max.x - b.min.x) * 0.5, (b.max.y - b.min.y) * 0.5) + marginXy,
           (b.max.z - b.min.z) * 0.5 + marginZ)
  }

  /** The snapped block covers the dirty box widened by d0 on every side. */
  lemma BlockCoversWidenedBox(b: Bounds, d0: real, sx: real, sz: real)
    requires sx > 0.0 && sz > 0.0
    ensures var g := BlockFor(WindowAround(b, d0 + sx, d0 + sz), sx, sz);
            && Edge(g.origin.x, sx) <= b.min.x - d0 - sx && b.max.x + d0 < Edge(g.origin.x + g.dims.x, sx)
            && Edge(g.origin.y, sx) <= b.min.y - d0 - sx && b.max.y + d0 < Edge(g.origin.y + g.dims.y, sx)
            && Edge(g.origin.z, sz) <= b.min.z - d0 - sz && b.max.z + d0 < Edge(g.origin.z + g.dims.z, sz)
  {
    hide Edge, AxisCells, AxisOrigin;
    var w := WindowAround(b, d0 + sx, d0 + sz);
    AxisCover(w.centre.x, w.horizHalf, sx);
    AxisCover(w.centre.y, w.horizHalf, sx);
    AxisCover(w.centre.z, w.vertHalf, sz);
  }

  function SpacingOf(sx: real, sz: real): Spacing {
    Spacing(Square(sx), Square(sx), Square(sz))
  }

  lemma GapIsEdgeSquared(i: int, j: int, s: real)
    ensures Gap(i, j, Square(s)) == Times(Edge(j - i, s), Edge(j - i, s))
  {}

  lemma NearOnEveryAxis(sx: real, sz: real, d0: real, k: Key, w: Key)
    requires Within(SpacingOf(sx, sz), d0, k, w)
    ensures -d0 < Edge(w.x - k.x, sx) < d0 && -d0 < Edge(w.y - k.y, sx) < d0 && -d0 < Edge(w.z - k.z, sz) < d0
  {
    hide Edge, Gap, Times, Square;
    GapIsEdgeSquared(k.x, w.x, sx);
    GapIsEdgeSquared(k.y, w.y, sx);
    GapIsEdgeSquared(k.z, w.z, sz);
    NearOnAxis(Edge(w.x - k.x, sx), d0);
    NearOnAxis(Edge(w.y - k.y, sx), d0);
    NearOnAxis(Edge(w.z - k.z, sz), d0);
  }

  lemma NearOnAxis(e: real, d0: real)
    requires d0 > 0.0
    ensures Times(e, e) >= 0.0
    ensures Times(e, e) < Times(d0, d0) ==> -d0 < e < d0
  {
    TimesSign(e, e);
    assert Times(-e, -e) == Times(e, e);
    if e >= 0.0 {
      RootsOrdered(e, d0);
    } else {
      RootsOrdered(-e, d0);
    }
  }

  /** Every voxel that holds a dirty position has its d0-ball inside the block, so it is
      answered exactly. */
  lemma DirtyVoxelHasItsBall(b: Bounds, d0: real, sx: real, sz: real, p: Vec3)
    requires sx > 0.0 && sz > 0.0 && d0 >= 0.0 && InBounds(p, b)
    ensures var g := BlockFor(WindowAround(b, d0 + sx, d0 + sz), sx, sz);
            InBlock(g, KeyOf(p, sx, sz)) && BallInBlock(g, SpacingOf(sx, sz), d0, KeyOf(p, sx, sz))
  {
    hide Edge, FloorDiv, Within, BlockFor, WindowAround;
    var g := BlockFor(WindowAround(b, d0 + sx, d0 + sz), sx, sz);
    var k := KeyOf(p, sx, sz);
    BlockCoversWidenedBox(b, d0, sx, sz);
    AxisBall(g.origin.x, g.dims.x, sx, p.x, d0, k.x, k.x);
    AxisBall(g.origin.y, g.dims.y, sx, p.y, d0, k.y, k.y);
    AxisBall(g.origin.z, g.dims.z, sz, p.z, d0, k.z, k.z);
    forall w | Within(SpacingOf(sx, sz), d0, k, w)
      ensures InBlock(g, w)
    {
      NearOnEveryAxis(sx, sz, d0, k, w);
      AxisBall(g.origin.x, g.dims.x, sx, p.x, d0, k.x, w.x);
      AxisBall(g.origin.y, g.dims.y, sx, p.y, d0, k.y, w.y);
      AxisBall(g.origin.z, g.dims.z, sz, p.z, d0, k.z, w.z);
    }
  }

  lemma AxisBall(o: int, n: nat, s: real, p: real, d0: real, k: int, w: int)
    requires s > 0.0 && Edge(o, s) <= p - d0 - s && p + d0 < Edge(o + n, s)
    requires Edge(k, s) <= p < Edge(k + 1, s) && d0 >= 0.0
    requires w == k || -d0 < Edge(w - k, s) < d0
    ensures o <= w < o + n
  {
    hide Edge;
    EdgeAdd(k, w - k, s);
    EdgeStep(k, s);
    EdgeMono(o, w, s);
    EdgeMono(o + n, w, s);
  }

  /** A box widened by r on every side. */
  function Swollen(b: Bounds, r: real): Bounds {
    Bounds(Vec3(b.min.x - r, b.min.y - r, b.min.z - r), Vec3(b.max.x + r, b.max.y + r, b.max.z + r))
  }

  lemma SwollenWindow(b: Bounds, r: real, marginXy: real, marginZ: real)
    ensures WindowAround(Swollen(b, r), marginXy, marginZ) == WindowAround(b, r + marginXy, r + marginZ)
  {}

  /** Every voxel whose centre is within r of a position of the box has its d0-ball inside the block
      made for the box widened by r and d0. */
  lemma TubeVoxelHasItsBall(b: Bounds, r: real, d0: real, sx: real, sz: real, p: Vec3, k: Key)
    requires sx > 0.0 && sz > 0.0 && d0 >= 0.0 && r >= 0.0 && InBounds(p, b)
    requires var c := CentreOf(k, sx, sz); Square(c.x - p.x) + Square(c.y - p.y) + Square(c.z - p.z) <= Square(r)
    ensures var g := BlockFor(WindowAround(b, r + d0 + sx, r + d0 + sz), sx, sz);
            InBlock(g, k) && BallInBlock(g, SpacingOf(sx, sz), d0, k)
  {
    hide KeyOf, CentreOf, BlockFor, InBlock, BallInBlock, Square, WindowAround;
    var c := CentreOf(k, sx, sz);
    WithinSquare(c.x - p.x, r);
    WithinSquare(c.y - p.y, r);
    WithinSquare(c.z - p.z, r);
    KeyOfCentre(k, sx, sz);
    SwollenWindow(b, r, d0 + sx, d0 + sz);
    assert r + (d0 + sx) == r + d0 + sx && r + (d0 + sz) == r + d0 + sz;
    DirtyVoxelHasItsBall(Swollen(b, r), d0, sx, sz, c);
  }

  lemma WithinSquare(e: real, r: real)
    requires r >= 0.0
    ensures Square(e) <= Square(r) ==> -r <= e <= r
  {
    assert Times(-e, -e) == Times(e, e);
    if e >= 0.0 {
      RootsOrdered(r, e);
    } else {
      RootsOrdered(r, -e);
    }
  }

  /** The ring that is erased but not recomputed is thin: at most one voxel wide below the block and
      two above, on every axis. */
  lemma ErasedRingIsThin(w: Window, sx: real, sz: real, k: Key)
    requires sx > 0.0 && sz > 0.0 && InBounds(CentreOf(k, sx, sz), EraseBox(w, sx, sz))
    ensures var b := BlockFor(w, sx, sz);
            && b.origin.x - 1 <= k.x <= b.origin.x + b.dims.x + 1
            && b.origin.y - 1 <= k.y <= b.origin.y + b.dims.y + 1
            && b.origin.z - 1 <= k.z <= b.origin.z + b.dims.z + 1
  {
    hide AxisCells, AxisOrigin, Mid;
    AxisRing(w.centre.x, w.horizHalf, sx, k.x);
    AxisRing(w.centre.y, w.horizHalf, sx, k.y);
    AxisRing(w.centre.z, w.vertHalf, sz, k.z);
  }

  lemma AxisRing(c: real, half: real, s: real, k: int)
    requires s > 0.0 && c - half - s <= Mid(k, s) <= c + half + s
    ensures var n := AxisCells(half, s); AxisOrigin(c, n, s) - 1 <= k <= AxisOrigin(c, n, s) + n + 1
  {
    hide Edge, AxisCells, AxisOrigin, Mid;
    var n := AxisCells(half, s);
    var o := AxisOrigin(c, n, s);
    AxisCover(c, half, s);
    MidOfSlab(k, s);
    EdgeStep(o - 1, s);
    EdgeStep(o - 2, s);
    EdgeStep(k, s);
    EdgeMono(k + 1, o - 1, s);
    EdgeStep(o + n, s);
    EdgeStep(o + n + 1, s);
    EdgeMono(o + n + 2, k, s);
  }
}
