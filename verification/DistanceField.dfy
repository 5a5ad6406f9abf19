/** The three passes of `compute_esdf`: one line transform along each axis gives every voxel
    its exact squared distance to the nearest occupied voxel of the grid. */
module DistanceField {
  import opened Grid
  import opened DistanceTransform

  datatype Dims = Dims(x: nat, y: nat, z: nat)

  predicate In(d: Dims, v: Key) {
    0 <= v.x < d.x && 0 <= v.y < d.y && 0 <= v.z < d.z
  }

  function Volume(d: Dims): nat {
    d.x * (d.y * d.z)
  }

  /** Row-major position of a voxel. */
  function Flat(d: Dims, v: Key): (p: int)
    ensures In(d, v) ==> 0 <= p < Volume(d)
  {
    if In(d, v) then
      DigitsInRange(v.y, v.z, d.y, d.z);
      DigitsInRange(v.x, v.y * d.z + v.z, d.x, d.y * d.z);
      v.x * (d.y * d.z) + (v.y * d.z + v.z)
    else
      v.x * (d.y * d.z) + (v.y * d.z + v.z)
  }

  /** Distinct voxels have distinct positions. */
  lemma FlatInjective(d: Dims, v: Key, w: Key)
    requires In(d, v) && In(d, w) && Flat(d, v) == Flat(d, w)
    ensures v == w
  {
    DigitsInRange(v.y, v.z, d.y, d.z);
    DigitsInRange(w.y, w.z, d.y, d.z);
    DigitsUnique(v.x, v.y * d.z + v.z, w.x, w.y * d.z + w.z, d.y * d.z);
    DigitsUnique(v.y, v.z, w.y, w.z, d.z);
  }

  // ---------------------------------------------------------------- specification

  /** Squared voxel spacings of the grid. */
  datatype Spacing = Spacing(x2: real, y2: real, z2: real)

  function SqDist(sp: Spacing, v: Key, w: Key): real {
    Gap(v.x, w.x, sp.x2) + Gap(v.y, w.y, sp.y2) + Gap(v.z, w.z, sp.z2)
  }

  ghost predicate Occupied(occ: seq<bool>, d: Dims, v: Key) {
    |occ| == Volume(d) && In(d, v) && occ[Flat(d, v)]
  }

  /** How many axes the passes have covered so far. */
  datatype Stage = Seeded | AlongX | AlongXY | AlongXYZ

  /** The occupied voxels that a stage has already propagated to v. */
  ghost predicate Seen(st: Stage, occ: seq<bool>, d: Dims, v: Key, w: Key) {
    && Occupied(occ, d, w)
    && (st.Seeded? ==> w.x == v.x)
    && (st.Seeded? || st.AlongX? ==> w.y == v.y)
    && (!st.AlongXYZ? ==> w.z == v.z)
  }

  /** r is the exact squared distance from v to the nearest occupied voxel seen by the stage,
      or the sentinel when none is seen. */
  ghost predicate Nearest(st: Stage, occ: seq<bool>, d: Dims, sp: Spacing, v: Key, r: real) {
    if forall w :: !Seen(st, occ, d, v, w) then r == INF_SQ
    else
      && (exists w :: Seen(st, occ, d, v, w) && r == SqDist(sp, v, w))
      && (forall w :: Seen(st, occ, d, v, w) ==> r <= SqDist(sp, v, w))
  }

  /** Largest squared distance along one axis. */
  function Span(n: nat, s2: real): real {
    Gap(n, 1, s2)
  }

  /** No squared distance that a later pass reads as input reaches the sentinel. */
  predicate BelowSentinel(d: Dims, sp: Spacing) {
    && sp.x2 > 0.0 && sp.y2 > 0.0 && sp.z2 > 0.0
    && Span(d.x, sp.x2) + Span(d.y, sp.y2) < INF_SQ
  }

  // ---------------------------------------------------------------- separability

  lemma SquaresOrdered(u: real, w: real, s2: real)
    requires -w <= u <= w && s2 > 0.0
    ensures 0.0 <= u * u * s2 <= w * w * s2
  {
    assert Times(w - u, w + u) == w * w - u * u;
    TimesSign(w - u, w + u);
    TimesSign(u, u);
    ScaledOrder(0.0, u * u, s2);
    ScaledOrder(u * u, w * w, s2);
  }

  lemma ScaledOrder(a: real, b: real, s: real)
    requires a <= b && s > 0.0
    ensures a * s <= b * s
  {
    TimesSign(b - a, s);
    assert Times(b - a, s) == b * s - a * s;
  }

  lemma GapBounds(i: int, a: int, n: nat, s2: real)
    requires 0 <= i < n && 0 <= a < n && s2 > 0.0
    ensures 0.0 <= Gap(i, a, s2) <= Span(n, s2)
    ensures i == a ==> Gap(i, a, s2) == 0.0
  {
    SquaresOrdered((i - a) as real, (n - 1) as real, s2);
  }

  function Next(st: Stage): Stage {
    match st
    case Seeded => AlongX
    case AlongX => AlongXY
    case _ => AlongXYZ
  }

  /** Coordinate of a voxel on the axis that the pass after stage st runs along. */
  function Axis(st: Stage, v: Key): int {
    match st
    case Seeded => v.x
    case AlongX => v.y
    case _ => v.z
  }

  function Moved(st: Stage, v: Key, p: int): Key {
    match st
    case Seeded => Key(p, v.y, v.z)
    case AlongX => Key(v.x, p, v.z)
    case _ => Key(v.x, v.y, p)
  }

  function Extent(st: Stage, d: Dims): nat {
    match st
    case Seeded => d.x
    case AlongX => d.y
    case _ => d.z
  }

  function AxisSpacing(st: Stage, sp: Spacing): real {
    match st
    case Seeded => sp.x2
    case AlongX => sp.y2
    case _ => sp.z2
  }

  lemma SeenBelowSentinel(st: Stage, occ: seq<bool>, d: Dims, sp: Spacing, v: Key, w: Key)
    requires !st.AlongXYZ? && BelowSentinel(d, sp) && In(d, v) && Seen(st, occ, d, v, w)
    ensures SqDist(sp, v, w) < INF_SQ
  {
    hide Gap, Span;
    GapBounds(v.x, w.x, d.x, sp.x2);
    GapBounds(v.y, w.y, d.y, sp.y2);
    GapBounds(v.z, w.z, d.z, sp.z2);
  }

  /** The next stage sees, at v, what this stage sees on the line through v, and the squared
      distance splits into the gap along the line plus the rest. */
  lemma Separable(st: Stage, occ: seq<bool>, d: Dims, sp: Spacing, v: Key, w: Key)
    requires !st.AlongXYZ? && BelowSentinel(d, sp) && In(d, v) && Occupied(occ, d, w)
    ensures Seen(Next(st), occ, d, v, w) <==> Seen(st, occ, d, Moved(st, v, Axis(st, w)), w)
    ensures SqDist(sp, v, w) == Gap(Axis(st, v), Axis(st, w), AxisSpacing(st, sp))
                                + SqDist(sp, Moved(st, v, Axis(st, w)), w)
  {
    hide Gap, Span;
    GapBounds(w.x, w.x, d.x, sp.x2);
    GapBounds(w.y, w.y, d.y, sp.y2);
    GapBounds(w.z, w.z, d.z, sp.z2);
  }

  /** One pass: if every voxel of a line holds the exact distance of this stage, the transform
      of the line holds the exact distance of the next stage. */
  lemma PassIsExact(st: Stage, occ: seq<bool>, d: Dims, sp: Spacing, v: Key, line: seq<real>, r: real)
    requires !st.AlongXYZ? && BelowSentinel(d, sp) && In(d, v) && |occ| == Volume(d)
    requires |line| == Extent(st, d)
    requires forall p :: 0 <= p < |line| ==> Nearest(st, occ, d, sp, Moved(st, v, p), line[p])
    requires IsTransform(line, AxisSpacing(st, sp), Axis(st, v), r)
    ensures Nearest(Next(st), occ, d, sp, v, r)
  {
    hide Gap, Span, SqDist, Volume, Flat, IsTransform, Nearest;
    if p, w :| 0 <= p < |line| && Seen(st, occ, d, Moved(st, v, p), w) {
      LineHasSource(st, occ, d, sp, v, line, w);
      ReachableLine(st, occ, d, sp, v, line, r);
    } else {
      EmptyLine(st, occ, d, sp, v, line, r);
    }
  }

  lemma LineHasSource(st: Stage, occ: seq<bool>, d: Dims, sp: Spacing, v: Key, line: seq<real>, w: Key)
    requires !st.AlongXYZ? && BelowSentinel(d, sp) && In(d, v) && |line| == Extent(st, d)
    requires Seen(st, occ, d, Moved(st, v, Axis(st, w)), w)
    requires forall p :: 0 <= p < |line| ==> Nearest(st, occ, d, sp, Moved(st, v, p), line[p])
    ensures Reachable(line, Axis(st, w))
    ensures line[Axis(st, w)] <= SqDist(sp, Moved(st, v, Axis(st, w)), w)
  {
    hide Gap, Span, SqDist, Volume, Flat, BelowSentinel;
    var p := Axis(st, w);
    assert Nearest(st, occ, d, sp, Moved(st, v, p), line[p]);
    SeenBelowSentinel(st, occ, d, sp, Moved(st, v, p), w);
  }

  lemma EmptyLine(st: Stage, occ: seq<bool>, d: Dims, sp: Spacing, v: Key, line: seq<real>, r: real)
    requires !st.AlongXYZ? && BelowSentinel(d, sp) && In(d, v) && |line| == Extent(st, d)
    requires forall p, w :: 0 <= p < |line| ==> !Seen(st, occ, d, Moved(st, v, p), w)
    requires forall p :: 0 <= p < |line| ==> Nearest(st, occ, d, sp, Moved(st, v, p), line[p])
    requires IsTransform(line, AxisSpacing(st, sp), Axis(st, v), r)
    ensures Nearest(Next(st), occ, d, sp, v, r)
  {
    hide Gap, Span, SqDist, Volume, Flat;
    forall p | 0 <= p < |line|
      ensures !Reachable(line, p)
    {
      assert Nearest(st, occ, d, sp, Moved(st, v, p), line[p]);
    }
    forall w
      ensures !Seen(Next(st), occ, d, v, w)
    {
      if Occupied(occ, d, w) {
        Separable(st, occ, d, sp, v, w);
      }
    }
  }

  lemma ReachableLine(st: Stage, occ: seq<bool>, d: Dims, sp: Spacing, v: Key, line: seq<real>, r: real)
    requires !st.AlongXYZ? && BelowSentinel(d, sp) && In(d, v) && |line| == Extent(st, d)
    requires forall p :: 0 <= p < |line| ==> Nearest(st, occ, d, sp, Moved(st, v, p), line[p])
    requires IsTransform(line, AxisSpacing(st, sp), Axis(st, v), r)
    requires exists p :: Reachable(line, p)
    ensures Nearest(Next(st), occ, d, sp, v, r)
  {
    hide Gap, Span, SqDist, Volume, Flat, BelowSentinel;
    var p :| Reachable(line, p) && r == Parabola(line[p], p, Axis(st, v), AxisSpacing(st, sp));
    assert Nearest(st, occ, d, sp, Moved(st, v, p), line[p]);
    var w :| Seen(st, occ, d, Moved(st, v, p), w) && line[p] == SqDist(sp, Moved(st, v, p), w);
    AttainedHere(st, occ, d, sp, v, p, w);
    forall u | Seen(Next(st), occ, d, v, u)
      ensures r <= SqDist(sp, v, u)
    {
      Separable(st, occ, d, sp, v, u);
      LineHasSource(st, occ, d, sp, v, line, u);
    }
  }

  lemma AttainedHere(st: Stage, occ: seq<bool>, d: Dims, sp: Spacing, v: Key, p: int, w: Key)
    requires !st.AlongXYZ? && BelowSentinel(d, sp) && In(d, v)
    requires Seen(st, occ, d, Moved(st, v, p), w)
    ensures p == Axis(st, w) && Seen(Next(st), occ, d, v, w)
    ensures SqDist(sp, v, w) == Gap(Axis(st, v), p, AxisSpacing(st, sp)) + SqDist(sp, Moved(st, v, p), w)
  {
    hide Gap, Span, SqDist, Volume, Flat;
    Separable(st, occ, d, sp, v, w);
  }

  // ---------------------------------------------------------------- the passes

  /** Squared distances of a whole grid are exact for a stage. */
  ghost predicate Exact(st: Stage, occ: seq<bool>, d: Dims, sp: Spacing, g: seq<real>) {
    && |g| == Volume(d)
    && forall v :: In(d, v) ==> Nearest(st, occ, d, sp, v, g[Flat(d, v)])
  }

  /** The values of g on the line through v that the pass after stage st runs along. */
  ghost function Line(st: Stage, d: Dims, v: Key, g: seq<real>): seq<real>
    requires In(d, v) && |g| == Volume(d)
  {
    seq(Extent(st, d), p requires 0 <= p < Extent(st, d) => g[Flat(d, Moved(st, v, p))])
  }

  ghost predicate OnLine(st: Stage, v: Key, w: Key) {
    w == Moved(st, v, Axis(st, w))
  }

  /** Gathers the line of src through v, transforms it and scatters the result into dst. */
  method TransformLine(st: Stage, d: Dims, v: Key, src: array<real>, dst: array<real>, s: real,
                       col: array<real>, out: array<real>, vWork: array<int>, zWork: array<real>)
    requires !st.AlongXYZ? && In(d, v) && s != 0.0
    requires src.Length == Volume(d) && dst.Length == Volume(d)
    requires Extent(st, d) <= col.Length && Extent(st, d) <= out.Length
    requires Extent(st, d) <= vWork.Length && Extent(st, d) + 1 <= zWork.Length
    requires src != dst && src != col && src != out && src != zWork && dst != col && dst != out && dst != zWork
    requires col != out && col != zWork && out != zWork
    modifies dst, col, out, vWork, zWork
    ensures forall p :: 0 <= p < Extent(st, d) ==>
              IsTransform(Line(st, d, v, src[..]), Square(s), p, dst[Flat(d, Moved(st, v, p))])
    ensures forall w :: In(d, w) && !OnLine(st, v, w) ==> dst[Flat(d, w)] == old(dst[Flat(d, w)])
  {
    hide Flat, Volume, Square, IsTransform;
    var n := Extent(st, d);
    ghost var line := Line(st, d, v, src[..]);
    for p := 0 to n
      invariant forall q :: 0 <= q < p ==> col[q] == src[Flat(d, Moved(st, v, q))]
      invariant forall q :: 0 <= q < dst.Length ==> dst[q] == old(dst[q])
    {
      col[p] := src[Flat(d, Moved(st, v, p))];
    }
    assert col[..n] == line;
    Transform1D(col, out, n, s, vWork, zWork);
    for p := 0 to n
      invariant forall q :: 0 <= q < n ==> IsTransform(line, Square(s), q, out[q])
      invariant forall q :: 0 <= q < p ==> dst[Flat(d, Moved(st, v, q))] == out[q]
      invariant forall w :: In(d, w) && !OnLine(st, v, w) ==> dst[Flat(d, w)] == old(dst[Flat(d, w)])
    {
      var here := Moved(st, v, p);
      forall w | In(d, w) && Flat(d, w) == Flat(d, here)
        ensures w == here
      {
        FlatInjective(d, w, here);
      }
      dst[Flat(d, here)] := out[p];
    }
  }

  /** The loops around a pass: the two axes the lines do not run along, in the source's order. */
  function Outer(st: Stage, d: Dims): nat {
    if st.Seeded? then d.y else d.x
  }

  function Inner(st: Stage, d: Dims): nat {
    if st.AlongXY? then d.y else d.z
  }

  function LineStart(st: Stage, a: int, b: int): Key {
    match st
    case Seeded => Key(0, a, b)
    case AlongX => Key(a, 0, b)
    case _ => Key(a, b, 0)
  }

  /** The line of v comes before line (a, b) in loop order. */
  predicate Before(st: Stage, v: Key, a: int, b: int) {
    var a', b' := if st.Seeded? then v.y else v.x, if st.AlongXY? then v.y else v.z;
    a' < a || (a' == a && b' < b)
  }

  /** One pass over the whole grid takes exact distances of one stage to exact distances of
      the next. */
  method Pass(st: Stage, ghost occ: seq<bool>, d: Dims, ghost sp: Spacing, src: array<real>, dst: array<real>,
              s: real, vWork: array<int>, zWork: array<real>)
    requires !st.AlongXYZ? && s != 0.0 && AxisSpacing(st, sp) == Square(s)
    requires |occ| == Volume(d) && BelowSentinel(d, sp) && Exact(st, occ, d, sp, src[..])
    requires src != dst && src != zWork && dst != zWork && dst.Length == Volume(d)
    requires Extent(st, d) <= vWork.Length && Extent(st, d) + 1 <= zWork.Length
    modifies dst, vWork, zWork
    ensures Exact(Next(st), occ, d, sp, dst[..])
  {
    hide Flat, Volume, Square, IsTransform, BelowSentinel, Nearest;
    var col := new real[Extent(st, d)];
    var out := new real[Extent(st, d)];
    for a := 0 to Outer(st, d)
      invariant forall v :: In(d, v) && Before(st, v, a, 0) ==> Nearest(Next(st), occ, d, sp, v, dst[Flat(d, v)])
    {
      for b := 0 to Inner(st, d)
        invariant forall v :: In(d, v) && Before(st, v, a, b) ==> Nearest(Next(st), occ, d, sp, v, dst[Flat(d, v)])
      {
        var start := LineStart(st, a, b);
        if Extent(st, d) > 0 {
          TransformLine(st, d, start, src, dst, s, col, out, vWork, zWork);
          LineBecomesExact(st, occ, d, sp, src[..], dst[..], start, s);
        }
      }
    }
  }

  lemma LineBecomesExact(st: Stage, occ: seq<bool>, d: Dims, sp: Spacing, src: seq<real>, dst: seq<real>, start: Key, s: real)
    requires !st.AlongXYZ? && AxisSpacing(st, sp) == Square(s) && In(d, start)
    requires |occ| == Volume(d) && BelowSentinel(d, sp) && Exact(st, occ, d, sp, src) && |dst| == Volume(d)
    requires forall p :: 0 <= p < Extent(st, d) ==>
               IsTransform(Line(st, d, start, src), Square(s), p, dst[Flat(d, Moved(st, start, p))])
    ensures forall v :: In(d, v) && OnLine(st, start, v) ==> Nearest(Next(st), occ, d, sp, v, dst[Flat(d, v)])
  {
    hide Flat, Volume, Square, IsTransform, BelowSentinel, Nearest;
    forall v | In(d, v) && OnLine(st, start, v)
      ensures Nearest(Next(st), occ, d, sp, v, dst[Flat(d, v)])
    {
      var line := Line(st, d, start, src);
      forall p | 0 <= p < |line|
        ensures Nearest(st, occ, d, sp, Moved(st, v, p), line[p])
      {
        assert Moved(st, v, p) == Moved(st, start, p) && In(d, Moved(st, v, p));
      }
      PassIsExact(st, occ, d, sp, v, line, dst[Flat(d, v)]);
    }
  }

  /** Occupied voxels start at distance zero, the others at the sentinel. */
  method Seed(occ: array<bool>, d: Dims, ghost sp: Spacing) returns (g: array<real>)
    requires occ.Length == Volume(d) && BelowSentinel(d, sp)
    ensures fresh(g) && Exact(Seeded, occ[..], d, sp, g[..])
  {
    hide Flat, Volume, BelowSentinel;
    g := new real[occ.Length];
    for i := 0 to occ.Length
      invariant forall q :: 0 <= q < i ==> g[q] == if occ[q] then 0.0 else INF_SQ
    {
      g[i] := if occ[i] then 0.0 else INF_SQ;
    }
    forall v | In(d, v)
      ensures Nearest(Seeded, occ[..], d, sp, v, g[Flat(d, v)])
    {
      SeedIsExact(occ[..], d, sp, v);
    }
  }

  lemma SeedIsExact(occ: seq<bool>, d: Dims, sp: Spacing, v: Key)
    requires |occ| == Volume(d) && In(d, v) && BelowSentinel(d, sp)
    ensures Nearest(Seeded, occ, d, sp, v, if occ[Flat(d, v)] then 0.0 else INF_SQ)
  {
    hide Flat, Volume, Gap, Span;
    GapBounds(v.x, v.x, d.x, sp.x2);
    GapBounds(v.y, v.y, d.y, sp.y2);
    GapBounds(v.z, v.z, d.z, sp.z2);
    assert SqDist(sp, v, v) == 0.0;
    assert forall w :: Seen(Seeded, occ, d, v, w) ==> w == v;
    if occ[Flat(d, v)] {
      assert Seen(Seeded, occ, d, v, v);
    }
  }

  /** Squared distance field of an occupancy grid: after the passes along X, Y and Z every
      voxel holds its exact squared distance to the nearest occupied voxel. */
  method SquaredField(occ: array<bool>, d: Dims, sx: real, sy: real, sz: real) returns (g3: array<real>)
    requires sx > 0.0 && sy > 0.0 && sz > 0.0 && occ.Length == Volume(d)
    requires BelowSentinel(d, Spacing(Square(sx), Square(sy), Square(sz)))
    ensures fresh(g3)
    ensures Exact(AlongXYZ, occ[..], d, Spacing(Square(sx), Square(sy), Square(sz)), g3[..])
  {
    hide Flat, Volume, Square, BelowSentinel, Exact;
    ghost var sp := Spacing(Square(sx), Square(sy), Square(sz));
    var longest := if d.x >= d.y && d.x >= d.z then d.x else if d.y >= d.z then d.y else d.z;
    var vWork := new int[longest];
    var zWork := new real[longest + 1];
    var g0 := Seed(occ, d, sp);
    var g1 := new real[occ.Length];
    var g2 := new real[occ.Length];
    g3 := new real[occ.Length];
    Pass(Seeded, occ[..], d, sp, g0, g1, sx, vWork, zWork);
    Pass(AlongX, occ[..], d, sp, g1, g2, sy, vWork, zWork);
    Pass(AlongXY, occ[..], d, sp, g2, g3, sz, vWork, zWork);
  }

  /** The sentinel bound cannot be dropped: two voxels, ten million kilometres apart on two
      axes, already lose the obstacle. */
  lemma SentinelBoundIsNeeded(g1: real, r: real)
    requires IsTransform([0.0, INF_SQ], INF_SQ, 1, g1)
    requires IsTransform([g1, INF_SQ], INF_SQ, 1, r)
    ensures r == INF_SQ < SqDist(Spacing(INF_SQ, INF_SQ, 1.0), Key(1, 1, 0), Key(0, 0, 0))
  {
    assert Reachable([0.0, INF_SQ], 0);
    assert Gap(1, 0, INF_SQ) == INF_SQ && Gap(1, 1, INF_SQ) == 0.0 && Gap(0, 0, 1.0) == 0.0;
    assert forall p :: Reachable([0.0, INF_SQ], p) ==> p == 0;
    assert g1 == INF_SQ;
    assert forall p :: 0 <= p < 2 ==> !Reachable([g1, INF_SQ], p);
  }
}
