/** Voxel traversal of `ray_cast`, one axis at a time: which slab the ray is in, when it next
    crosses a grid line, and how many crossings are left. */
module RayMarch {
  import opened Grid

  /** One coordinate of the ray: it starts at o and moves by d per metre; lines are s apart. */
  datatype Axis = Axis(o: real, d: real, s: real)

  /** A crossing time; an axis the ray does not move along is never crossed. */
  datatype Time = Never | At(t: real)

  predicate NoLater(a: Time, b: Time) {
    b.Never? || (a.At? && a.t <= b.t)
  }

  function Pos(a: Axis, t: real): real {
    a.o + Times(t, a.d)
  }

  function Step(a: Axis): int {
    if a.d >= 0.0 then 1 else -1
  }

  /** The grid line through which the ray leaves slab i. */
  function Exit(a: Axis, i: int): real {
    if a.d >= 0.0 then Edge(i + 1, a.s) else Edge(i, a.s)
  }

  function FirstCrossing(a: Axis, i: int): Time {
    if a.d != 0.0 then At((Exit(a, i) - a.o) / a.d) else Never
  }

  /** Time between two crossings. */
  function Period(a: Axis): real
    requires a.d != 0.0
  {
    a.s / (if a.d >= 0.0 then a.d else -a.d)
  }

  function Later(a: Axis, n: Time): Time {
    if n.At? && a.d != 0.0 then At(n.t + Period(a)) else n
  }

  ghost predicate InClosedSlab(a: Axis, t: real, i: int) {
    Edge(i, a.s) <= Pos(a, t) <= Edge(i + 1, a.s)
  }

  ghost predicate InOpenSlab(a: Axis, t: real, i: int) {
    Edge(i, a.s) < Pos(a, t) < Edge(i + 1, a.s)
  }

  /** From time `from` on the ray is in slab i until its next crossing. */
  ghost predicate OnTrack(a: Axis, i: int, from: real, next: Time) {
    if a.d == 0.0 then next.Never? && Edge(i, a.s) <= a.o < Edge(i + 1, a.s)
    else
      && next.At? && from <= next.t && Pos(a, next.t) == Exit(a, i)
      && InClosedSlab(a, from, i)
  }

  lemma StartOnTrack(a: Axis)
    requires a.s > 0.0
    ensures OnTrack(a, FloorDiv(a.o, a.s), 0.0, FirstCrossing(a, FloorDiv(a.o, a.s)))
  {
    hide Edge, FloorDiv;
    var i := FloorDiv(a.o, a.s);
    assert Times(0.0, a.d) == 0.0;
    if a.d != 0.0 {
      var t := (Exit(a, i) - a.o) / a.d;
      assert Times(t, a.d) == Exit(a, i) - a.o;
      TimesSign(-t, a.d);
      TimesSign(-t, -a.d);
      assert Times(-t, a.d) == -Times(t, a.d) && Times(-t, -a.d) == Times(t, a.d);
    }
  }

  lemma PosMono(a: Axis, t: real, u: real)
    requires t <= u
    ensures a.d >= 0.0 ==> Pos(a, t) <= Pos(a, u)
    ensures a.d <= 0.0 ==> Pos(a, u) <= Pos(a, t)
  {
    TimesSign(u - t, a.d);
    TimesSign(u - t, -a.d);
    assert Times(u - t, a.d) == Times(u, a.d) - Times(t, a.d);
    assert Times(u - t, -a.d) == Times(t, a.d) - Times(u, a.d);
  }

  lemma StaysInSlab(a: Axis, i: int, from: real, next: Time, t: real)
    requires a.s > 0.0 && OnTrack(a, i, from, next) && from <= t && NoLater(At(t), next)
    ensures InClosedSlab(a, t, i)
  {
    hide Edge;
    if a.d == 0.0 {
      assert Times(t, 0.0) == 0.0;
    } else {
      PosMono(a, from, t);
      PosMono(a, t, next.t);
    }
  }

  /** Waiting on one axis while another axis crosses. */
  lemma WaitOnTrack(a: Axis, i: int, from: real, next: Time, t: real)
    requires a.s > 0.0 && OnTrack(a, i, from, next) && from <= t && NoLater(At(t), next)
    ensures OnTrack(a, i, t, next)
  {
    hide Edge, Pos;
    StaysInSlab(a, i, from, next, t);
  }

  /** Crossing a grid line moves to the adjacent slab. */
  lemma CrossOnTrack(a: Axis, i: int, from: real, next: Time)
    requires a.s > 0.0 && OnTrack(a, i, from, next) && next.At?
    ensures OnTrack(a, i + Step(a), next.t, Later(a, next)) && Period(a) > 0.0
  {
    hide Edge;
    var m := if a.d >= 0.0 then a.d else -a.d;
    var p := Period(a);
    assert Times(p, m) == a.s;
    TimesSign(-p, m);
    assert Times(-p, m) == -Times(p, m);
    assert p > 0.0;
    assert Times(next.t + p, a.d) == Times(next.t, a.d) + Times(p, a.d);
    assert a.d < 0.0 ==> Times(p, a.d) == -Times(p, m);
    EdgeStep(i, a.s);
    EdgeStep(i + 1, a.s);
    EdgeStep(i - 1, a.s);
  }

  /** A position cannot be in one slab's interior and in another slab. */
  lemma SlabsDisjoint(a: Axis, t: real, i: int, j: int)
    requires a.s > 0.0 && InClosedSlab(a, t, i) && InOpenSlab(a, t, j)
    ensures i == j
  {
    hide Edge, Pos;
    EdgeMono(i + 1, j, a.s);
    EdgeMono(j + 1, i, a.s);
  }

  /** Crossings left on one axis up to the range limit. */
  function Remaining(a: Axis, next: Time, range: real): (n: nat)
    requires a.s > 0.0
    requires next.At? ==> a.d != 0.0
  {
    if next.Never? || next.t > range then 0
    else
      var m := if a.d >= 0.0 then a.d else -a.d;
      PeriodPositive(a);
      QuotientNonNegative(range - next.t, Period(a));
      ((range - next.t) / Period(a)).Floor + 1
  }

  lemma PeriodPositive(a: Axis)
    requires a.s > 0.0 && a.d != 0.0
    ensures Period(a) > 0.0
  {}

  lemma QuotientNonNegative(x: real, p: real)
    requires x >= 0.0 && p > 0.0
    ensures x / p >= 0.0
  {}

  lemma CrossingIsUsedUp(a: Axis, next: Time, range: real)
    requires a.s > 0.0 && a.d != 0.0 && next.At? && next.t <= range
    ensures Remaining(a, Later(a, next), range) < Remaining(a, next, range)
  {
    PeriodPositive(a);
    var p := Period(a);
    QuotientNonNegative(range - next.t, p);
    QuotientShift(range - next.t, p);
  }

  lemma QuotientShift(x: real, p: real)
    requires p > 0.0
    ensures (x - p) / p == x / p - 1.0
  {
    var y, q := (x - p) / p, x / p;
    var w := y - q + 1.0;
    assert Times(y, p) == x - p && Times(q, p) == x;
    assert Times(w, p) == Times(y, p) - Times(q, p) + p;
    TimesSign(w, p);
    TimesSign(-w, p);
    assert Times(-w, p) == -Times(w, p);
  }

  // ---------------------------------------------------------------- three axes

  datatype Ray = Ray(x: Axis, y: Axis, z: Axis)

  ghost predicate Inside(r: Ray, t: real, k: Key) {
    InOpenSlab(r.x, t, k.x) && InOpenSlab(r.y, t, k.y) && InOpenSlab(r.z, t, k.z)
  }

  ghost predicate Touches(r: Ray, t: real, k: Key) {
    InClosedSlab(r.x, t, k.x) && InClosedSlab(r.y, t, k.y) && InClosedSlab(r.z, t, k.z)
  }

  predicate Moving(r: Ray) {
    && r.x.s > 0.0 && r.y.s > 0.0 && r.z.s > 0.0
    && (r.x.d != 0.0 || r.y.d != 0.0 || r.z.d != 0.0)
  }

  /** Current voxel, the time it was entered, and the next crossing of each axis. */
  datatype Walk = Walk(cur: Key, from: real, tx: Time, ty: Time, tz: Time)

  ghost predicate Tracking(r: Ray, w: Walk) {
    OnTrack(r.x, w.cur.x, w.from, w.tx) && OnTrack(r.y, w.cur.y, w.from, w.ty) && OnTrack(r.z, w.cur.z, w.from, w.tz)
  }

  function Begin(r: Ray): Walk
    requires Moving(r)
  {
    var k := Key(FloorDiv(r.x.o, r.x.s), FloorDiv(r.y.o, r.y.s), FloorDiv(r.z.o, r.z.s));
    Walk(k, 0.0, FirstCrossing(r.x, k.x), FirstCrossing(r.y, k.y), FirstCrossing(r.z, k.z))
  }

  lemma BeginTracks(r: Ray)
    requires Moving(r)
    ensures Tracking(r, Begin(r)) && Touches(r, 0.0, Begin(r).cur)
  {
    hide OnTrack, FirstCrossing, FloorDiv, InClosedSlab;
    StartOnTrack(r.x);
    StartOnTrack(r.y);
    StartOnTrack(r.z);
    StartInSlab(r.x);
    StartInSlab(r.y);
    StartInSlab(r.z);
  }

  lemma StartInSlab(a: Axis)
    requires a.s > 0.0
    ensures InClosedSlab(a, 0.0, FloorDiv(a.o, a.s))
  {
    assert Times(0.0, a.d) == 0.0;
  }

  /** The axis crossed first: x before y before z when times are equal. */
  datatype Choice = X | Y | Z

  function Choose(w: Walk): Choice {
    if NoLater(w.tx, w.ty) && NoLater(w.tx, w.tz) then X
    else if NoLater(w.ty, w.tz) then Y
    else Z
  }

  function Crossing(w: Walk): Time {
    match Choose(w)
    case X => w.tx
    case Y => w.ty
    case Z => w.tz
  }

  /** One turn of the loop: step into the voxel behind the nearest grid line. */
  function Advance(r: Ray, w: Walk): Walk
    requires Crossing(w).At?
  {
    var t := Crossing(w).t;
    match Choose(w)
    case X => w.(cur := w.cur.(x := w.cur.x + Step(r.x)), from := t, tx := Later(r.x, w.tx))
    case Y => w.(cur := w.cur.(y := w.cur.y + Step(r.y)), from := t, ty := Later(r.y, w.ty))
    case Z => w.(cur := w.cur.(z := w.cur.z + Step(r.z)), from := t, tz := Later(r.z, w.tz))
  }

  lemma CrossingIsFirst(r: Ray, w: Walk)
    requires Moving(r) && Tracking(r, w)
    ensures Crossing(w).At? && w.from <= Crossing(w).t
    ensures NoLater(Crossing(w), w.tx) && NoLater(Crossing(w), w.ty) && NoLater(Crossing(w), w.tz)
  {
    hide InClosedSlab, Exit, Pos, Edge;
  }

  /** Until the crossing the ray meets no interior but that of the current voxel. */
  lemma OnlyCurrentUntilCrossing(r: Ray, w: Walk, t: real, k: Key)
    requires Moving(r) && Tracking(r, w) && Crossing(w).At? && w.from <= t <= Crossing(w).t
    ensures Inside(r, t, k) ==> k == w.cur
  {
    hide InClosedSlab, InOpenSlab, OnTrack;
    CrossingIsFirst(r, w);
    StaysInSlab(r.x, w.cur.x, w.from, w.tx, t);
    StaysInSlab(r.y, w.cur.y, w.from, w.ty, t);
    StaysInSlab(r.z, w.cur.z, w.from, w.tz, t);
    if Inside(r, t, k) {
      SlabsDisjoint(r.x, t, w.cur.x, k.x);
      SlabsDisjoint(r.y, t, w.cur.y, k.y);
      SlabsDisjoint(r.z, t, w.cur.z, k.z);
    }
  }

  /** Crossings left on the three axes together. */
  ghost function Left(r: Ray, w: Walk, range: real): nat
    requires Moving(r) && Tracking(r, w)
  {
    Remaining(r.x, w.tx, range) + Remaining(r.y, w.ty, range) + Remaining(r.z, w.tz, range)
  }

  /** A turn of the loop keeps the walk on track and uses up a crossing within the range. */
  lemma AdvanceTracks(r: Ray, w: Walk, range: real)
    requires Moving(r) && Tracking(r, w)
    ensures Crossing(w).At? && Tracking(r, Advance(r, w)) && Touches(r, Advance(r, w).from, Advance(r, w).cur)
    ensures Crossing(w).t <= range ==> Left(r, Advance(r, w), range) < Left(r, w, range)
  {
    hide InClosedSlab, Exit, Pos, Edge, Remaining, OnTrack, Later, Step;
    CrossingIsFirst(r, w);
    var t, w' := Crossing(w).t, Advance(r, w);
    match Choose(w) {
      case X => AxisAdvance(r.x, w.cur.x, w.from, w.tx, range);
      case Y => AxisAdvance(r.y, w.cur.y, w.from, w.ty, range);
      case Z => AxisAdvance(r.z, w.cur.z, w.from, w.tz, range);
    }
    if !Choose(w).X? { WaitOnTrack(r.x, w.cur.x, w.from, w.tx, t); }
    if !Choose(w).Y? { WaitOnTrack(r.y, w.cur.y, w.from, w.ty, t); }
    if !Choose(w).Z? { WaitOnTrack(r.z, w.cur.z, w.from, w.tz, t); }
    TracksTouches(r, w');
  }

  lemma AxisAdvance(a: Axis, i: int, from: real, next: Time, range: real)
    requires a.s > 0.0 && OnTrack(a, i, from, next) && next.At?
    ensures a.d != 0.0 && OnTrack(a, i + Step(a), next.t, Later(a, next))
    ensures next.t <= range ==> Remaining(a, Later(a, next), range) < Remaining(a, next, range)
  {
    CrossOnTrack(a, i, from, next);
    if next.t <= range {
      CrossingIsUsedUp(a, next, range);
    }
  }

  lemma TracksTouches(r: Ray, w: Walk)
    requires Moving(r) && Tracking(r, w)
    ensures Touches(r, w.from, w.cur)
  {
    hide InClosedSlab, Exit, Pos, Edge;
    TrackTouches(r.x, w.cur.x, w.from, w.tx);
    TrackTouches(r.y, w.cur.y, w.from, w.ty);
    TrackTouches(r.z, w.cur.z, w.from, w.tz);
  }

  lemma TrackTouches(a: Axis, i: int, from: real, next: Time)
    requires a.s > 0.0 && OnTrack(a, i, from, next)
    ensures InClosedSlab(a, from, i)
  {
    if a.d == 0.0 {
      assert Times(from, 0.0) == 0.0;
    }
  }

  // ---------------------------------------------------------------- what a cast promises

  /** No occupied voxel has an interior the ray enters at or before time t. */
  ghost predicate ClearUntil(r: Ray, occupied: set<Key>, t: real) {
    forall u, k :: 0.0 <= u <= t && Inside(r, u, k) ==> k !in occupied
  }

  lemma ClearExtends(r: Ray, occupied: set<Key>, w: Walk)
    requires Moving(r) && Tracking(r, w) && Crossing(w).At?
    requires w.cur !in occupied && (w.from <= 0.0 || ClearUntil(r, occupied, w.from))
    ensures ClearUntil(r, occupied, Crossing(w).t)
  {
    hide Inside, Tracking, Crossing;
    forall u, k | 0.0 <= u <= Crossing(w).t && Inside(r, u, k)
      ensures k !in occupied
    {
      if w.from <= u {
        OnlyCurrentUntilCrossing(r, w, u, k);
      }
    }
  }

  // ---------------------------------------------------------------- the same promise on points

  /** u is the length of dir. */
  ghost predicate IsLength(u: real, dir: Vec3) {
    u >= 0.0 && u * u == dir.x * dir.x + dir.y * dir.y + dir.z * dir.z
  }

  /** The point t metres from origin in direction dir, whose length is u. */
  function Along(origin: Vec3, dir: Vec3, u: real, t: real): Vec3
    requires u != 0.0
  {
    Vec3(origin.x + t / u * dir.x, origin.y + t / u * dir.y, origin.z + t / u * dir.z)
  }

  ghost predicate StrictlyInside(p: Vec3, k: Key, sx: real, sz: real) {
    && Edge(k.x, sx) < p.x < Edge(k.x + 1, sx)
    && Edge(k.y, sx) < p.y < Edge(k.y + 1, sx)
    && Edge(k.z, sz) < p.z < Edge(k.z + 1, sz)
  }

  ghost predicate InClosedVoxel(p: Vec3, k: Key, sx: real, sz: real) {
    && Edge(k.x, sx) <= p.x <= Edge(k.x + 1, sx)
    && Edge(k.y, sx) <= p.y <= Edge(k.y + 1, sx)
    && Edge(k.z, sz) <= p.z <= Edge(k.z + 1, sz)
  }

  lemma Scaled(t: real, d: real, u: real)
    requires u > 0.0
    ensures Times(t, d / u) == t / u * d
  {
    var q, a := d / u, t / u;
    assert q * u == d && a * u == t;
    assert (a * u) * q == a * (q * u);
  }

  lemma LengthUnique(u: real, v: real)
    requires u >= 0.0 && v >= 0.0 && u * u == v * v
    ensures u == v
  {
    RootsOrdered(u, v);
  }

  /** r is the ray from origin along dir, with the length of dir taken out. */
  ghost predicate Follows(r: Ray, origin: Vec3, dir: Vec3, u: real, sx: real, sz: real)
    requires u != 0.0
  {
    r == Ray(Axis(origin.x, dir.x / u, sx), Axis(origin.y, dir.y / u, sx), Axis(origin.z, dir.z / u, sz))
  }

  lemma RayPoint(r: Ray, origin: Vec3, dir: Vec3, u: real, sx: real, sz: real, t: real)
    requires u > 0.0 && Follows(r, origin, dir, u, sx, sz)
    ensures Vec3(Pos(r.x, t), Pos(r.y, t), Pos(r.z, t)) == Along(origin, dir, u, t)
  {
    hide Times;
    Scaled(t, dir.x, u);
    Scaled(t, dir.y, u);
    Scaled(t, dir.z, u);
  }

  /** Along the way from origin up to t no occupied voxel is entered. */
  ghost predicate PathIsFree(origin: Vec3, dir: Vec3, u: real, range: real, occupied: set<Key>, sx: real, sz: real)
    requires u != 0.0
  {
    forall t, k :: 0.0 <= t <= range && k in occupied ==> !StrictlyInside(Along(origin, dir, u, t), k, sx, sz)
  }

  lemma ClearMeansFree(r: Ray, origin: Vec3, dir: Vec3, u: real, range: real, occupied: set<Key>, sx: real, sz: real)
    requires u > 0.0 && Follows(r, origin, dir, u, sx, sz) && ClearUntil(r, occupied, range)
    ensures PathIsFree(origin, dir, u, range, occupied, sx, sz)
  {
    hide Pos, Along, Follows, Edge;
    forall t, k | 0.0 <= t <= range && k in occupied
      ensures !StrictlyInside(Along(origin, dir, u, t), k, sx, sz)
    {
      RayPoint(r, origin, dir, u, sx, sz, t);
      InsideIs(r, origin, dir, u, sx, sz, t, k);
    }
  }

  lemma InsideIs(r: Ray, origin: Vec3, dir: Vec3, u: real, sx: real, sz: real, t: real, k: Key)
    requires u > 0.0 && Follows(r, origin, dir, u, sx, sz)
    ensures Inside(r, t, k) <==> StrictlyInside(Along(origin, dir, u, t), k, sx, sz)
    ensures Touches(r, t, k) <==> InClosedVoxel(Along(origin, dir, u, t), k, sx, sz)
  {
    hide Edge, Pos, Along;
    RayPoint(r, origin, dir, u, sx, sz, t);
  }
}
