/** Level 3: the local distance map -- computed from a window of the planning map, patched in
    place when cells change, and queried by the planner. */
module LocalEsdf {
  import opened Grid
  import opened DistanceTransform
  import opened DistanceField
  import opened EsdfSpec
  import opened EsdfWindow
  import PlanningSpec
  import PlanningMap

  /** Coarse voxels that hold the centre of an occupied planning cell. */
  ghost function OccupiedVoxels(l2: PlanningMap.MissionLocalPlanningMap, sx: real, sz: real): set<Key>
    reads l2
    requires l2.InStep() && sx > 0.0 && sz > 0.0
  {
    set k | k in l2.OccupiedKeys() :: KeyOf(l2.Live()[k].cell.centre, sx, sz)
  }

  function Spacing2(l2: PlanningMap.MissionLocalPlanningMap, sampleSpacing: real): real {
    Max(l2.cfg.cellSize, sampleSpacing)
  }

  function BlockBox(b: Block, sx: real, sz: real): Bounds {
    Bounds(Vec3(Edge(b.origin.x, sx), Edge(b.origin.y, sx), Edge(b.origin.z, sz)),
           Vec3(Edge(b.origin.x + b.dims.x, sx), Edge(b.origin.y + b.dims.y, sx), Edge(b.origin.z + b.dims.z, sz)))
  }

  lemma PointInBlockBox(b: Block, sx: real, sz: real, p: Vec3)
    requires sx > 0.0 && sz > 0.0 && InBlock(b, KeyOf(p, sx, sz))
    ensures InBounds(p, BlockBox(b, sx, sz))
  {
    hide Edge, FloorDiv;
    PointInRow(b.origin.x, b.dims.x, sx, p.x);
    PointInRow(b.origin.y, b.dims.y, sx, p.y);
    PointInRow(b.origin.z, b.dims.z, sz, p.z);
  }

  lemma PointInRow(o: int, n: nat, s: real, x: real)
    requires s > 0.0 && o <= FloorDiv(x, s) < o + n
    ensures Edge(o, s) <= x <= Edge(o + n, s)
  {
    hide Edge, FloorDiv;
    EdgeMono(o, FloorDiv(x, s), s);
    EdgeMono(FloorDiv(x, s) + 1, o + n, s);
  }

  /** Grid index of a point, as the source computes it from the block's corner. */
  function WorldToIndex(b: Block, sx: real, sz: real, p: Vec3): Key
    requires sx > 0.0 && sz > 0.0
  {
    Key(FloorDiv(p.x - Edge(b.origin.x, sx), sx), FloorDiv(p.y - Edge(b.origin.y, sx), sx),
        FloorDiv(p.z - Edge(b.origin.z, sz), sz))
  }

  lemma WorldToIndexIsLocal(b: Block, sx: real, sz: real, p: Vec3)
    requires sx > 0.0 && sz > 0.0
    ensures WorldToIndex(b, sx, sz, p) == Local(b, KeyOf(p, sx, sz))
  {
    hide Edge, FloorDiv;
    FloorDivShift(p.x, sx, b.origin.x);
    FloorDivShift(p.y, sx, b.origin.y);
    FloorDivShift(p.z, sz, b.origin.z);
  }

  /** The occupancy grid marks exactly the voxels of the block that hold an occupied cell. */
  ghost predicate MarksVoxels(occ: seq<bool>, b: Block, voxels: set<Key>) {
    |occ| == Volume(b.dims) &&
    forall v :: In(b.dims, v) ==> (occ[Flat(b.dims, v)] <==> Global(b, v) in voxels)
  }

  method FillOccupancy(l2: PlanningMap.MissionLocalPlanningMap, b: Block, sx: real, sz: real) returns (occ: array<bool>)
    requires l2.Valid() && sx > 0.0 && sz > 0.0
    ensures fresh(occ) && MarksVoxels(occ[..], b, OccupiedVoxels(l2, sx, sz))
  {
    hide Volume, Flat, Edge, FloorDiv, WorldToIndex, OccupiedVoxels;
    hide PlanningMap.MissionLocalPlanningMap.Live;
    hide PlanningMap.MissionLocalPlanningMap.Matches;
    var found := l2.QueryOccupiedTsInBox(BlockBox(b, sx, sz));
    ghost var voxels := OccupiedVoxels(l2, sx, sz);
    forall v | In(b.dims, v)
      ensures (exists j :: 0 <= j < |found| && WorldToIndex(b, sx, sz, found[j].0) == v) <==> Global(b, v) in voxels
    {
      FoundMeansOccupied(l2, b, sx, sz, found, v);
    }
    occ := MarkFound(found, b, sx, sz);
    assert MarksVoxels(occ[..], b, voxels);
  }

  method MarkFound(found: seq<(Vec3, int)>, b: Block, sx: real, sz: real) returns (occ: array<bool>)
    requires sx > 0.0 && sz > 0.0
    ensures fresh(occ) && occ.Length == Volume(b.dims)
    ensures forall v :: In(b.dims, v) ==>
              (occ[Flat(b.dims, v)] <==> exists j :: 0 <= j < |found| && WorldToIndex(b, sx, sz, found[j].0) == v)
  {
    hide Volume, Flat, WorldToIndex;
    occ := new bool[Volume(b.dims)](_ => false);
    for i := 0 to |found|
      invariant forall v :: In(b.dims, v) ==>
                  (occ[Flat(b.dims, v)] <==> exists j :: 0 <= j < i && WorldToIndex(b, sx, sz, found[j].0) == v)
    {
      var at := WorldToIndex(b, sx, sz, found[i].0);
      if In(b.dims, at) {
        forall v | In(b.dims, v) && Flat(b.dims, v) == Flat(b.dims, at)
          ensures v == at
        {
          FlatInjective(b.dims, v, at);
        }
        occ[Flat(b.dims, at)] := true;
      }
    }
  }

  lemma FoundMeansOccupied(l2: PlanningMap.MissionLocalPlanningMap, b: Block, sx: real, sz: real,
                           found: seq<(Vec3, int)>, v: Key)
    requires l2.InStep() && sx > 0.0 && sz > 0.0 && In(b.dims, v)
    requires forall p :: p in found <==>
               exists k :: l2.Matches(BlockBox(b, sx, sz), k) && p == (l2.Live()[k].cell.centre, l2.Live()[k].cell.updatedNs)
    ensures (exists j :: 0 <= j < |found| && WorldToIndex(b, sx, sz, found[j].0) == v) <==>
            Global(b, v) in OccupiedVoxels(l2, sx, sz)
  {
    hide Edge, FloorDiv, WorldToIndex, BlockBox, InBounds;
    hide PlanningMap.MissionLocalPlanningMap.InStep;
    hide PlanningMap.MissionLocalPlanningMap.Live;
    if j :| 0 <= j < |found| && WorldToIndex(b, sx, sz, found[j].0) == v {
      assert found[j] in found;
      WorldToIndexIsLocal(b, sx, sz, found[j].0);
    }
    if Global(b, v) in OccupiedVoxels(l2, sx, sz) {
      var k :| k in l2.OccupiedKeys() && KeyOf(l2.Live()[k].cell.centre, sx, sz) == Global(b, v);
      var c := l2.Live()[k].cell;
      PointInBlockBox(b, sx, sz, c.centre);
      assert l2.Matches(BlockBox(b, sx, sz), k);
      assert (c.centre, c.updatedNs) in found;
      WorldToIndexIsLocal(b, sx, sz, c.centre);
    }
  }

  // ---------------------------------------------------------------- shell

  function ShellCell(k: Key, sx: real, sz: real, d: real): EsdfCell {
    EsdfCell(CentreOf(k, sx, sz), d)
  }

  /** The stored entry of voxel v: interior value if occupied, its distance if below d0, and
      no entry otherwise. */
  ghost predicate EntryRight(occ: seq<bool>, g: seq<real>, b: Block, sx: real, sz: real, d0: real, sqrt: real -> real,
                             cells: map<Key, EsdfCell>, v: Key)
    requires |occ| == Volume(b.dims) == |g| && In(b.dims, v)
  {
    var k := Global(b, v);
    if occ[Flat(b.dims, v)] then k in cells && cells[k] == ShellCell(k, sx, sz, INTERIOR)
    else if sqrt(g[Flat(b.dims, v)]) < d0 then k in cells && cells[k] == ShellCell(k, sx, sz, sqrt(g[Flat(b.dims, v)]))
    else k !in cells
  }

  ghost predicate StoredUpTo(occ: seq<bool>, g: seq<real>, b: Block, sx: real, sz: real, d0: real, sqrt: real -> real,
                             cells: map<Key, EsdfCell>, at: Key)
    requires |occ| == Volume(b.dims) == |g|
  {
    && (forall v :: In(b.dims, v) && LoopBefore(v, at) ==> EntryRight(occ, g, b, sx, sz, d0, sqrt, cells, v))
    && (forall k :: k in cells ==> InBlock(b, k) && LoopBefore(Local(b, k), at))
  }

  /** Voxel centre and key as the store loop computes them from the block's corner. */
  function GridCentre(b: Block, sx: real, sz: real, v: Key): Vec3 {
    Vec3(Edge(b.origin.x, sx) + (v.x as real + 0.5) * sx, Edge(b.origin.y, sx) + (v.y as real + 0.5) * sx,
         Edge(b.origin.z, sz) + (v.z as real + 0.5) * sz)
  }

  lemma GridCentreIsCentre(b: Block, sx: real, sz: real, v: Key)
    requires sx > 0.0 && sz > 0.0
    ensures GridCentre(b, sx, sz, v) == CentreOf(Global(b, v), sx, sz)
    ensures KeyOf(GridCentre(b, sx, sz, v), sx, sz) == Global(b, v)
  {
    hide FloorDiv;
    KeyOfCentre(Global(b, v), sx, sz);
  }

  lemma StoreOneMore(occ: seq<bool>, g: seq<real>, b: Block, sx: real, sz: real, d0: real, sqrt: real -> real,
                     cells: map<Key, EsdfCell>, cells': map<Key, EsdfCell>, at: Key)
    requires |occ| == Volume(b.dims) == |g| && In(b.dims, at)
    requires StoredUpTo(occ, g, b, sx, sz, d0, sqrt, cells, at)
    requires EntryRight(occ, g, b, sx, sz, d0, sqrt, cells', at)
    requires cells' - {Global(b, at)} == cells - {Global(b, at)}
    ensures StoredUpTo(occ, g, b, sx, sz, d0, sqrt, cells', at.(z := at.z + 1))
  {
    hide Flat, Volume, ShellCell;
    var here := Global(b, at);
    forall k | k != here
      ensures k in cells' <==> k in cells
      ensures k in cells ==> cells'[k] == cells[k]
    {
      assert k in cells' <==> k in cells' - {here};
      assert k in cells <==> k in cells - {here};
      assert k in cells ==> (cells' - {here})[k] == cells'[k] && (cells - {here})[k] == cells[k];
    }
    forall v | In(b.dims, v) && LoopBefore(v, at.(z := at.z + 1))
      ensures EntryRight(occ, g, b, sx, sz, d0, sqrt, cells', v)
    {
      if v != at {
        assert EntryRight(occ, g, b, sx, sz, d0, sqrt, cells, v);
        assert Global(b, v) != here;
      }
    }
  }

  method StoreShell(occ: array<bool>, g: array<real>, b: Block, sx: real, sz: real, d0: real, sqrt: real -> real)
    returns (cells: map<Key, EsdfCell>)
    requires sx > 0.0 && sz > 0.0 && occ.Length == Volume(b.dims) == g.Length
    ensures StoredUpTo(occ[..], g[..], b, sx, sz, d0, sqrt, cells, Key(b.dims.x, 0, 0))
  {
    hide Flat, Volume, StoredUpTo, ShellCell;
    cells := map[];
    NothingStored(occ[..], g[..], b, sx, sz, d0, sqrt);
    for i := 0 to b.dims.x
      invariant StoredUpTo(occ[..], g[..], b, sx, sz, d0, sqrt, cells, Key(i, 0, 0))
    {
      for j := 0 to b.dims.y
        invariant StoredUpTo(occ[..], g[..], b, sx, sz, d0, sqrt, cells, Key(i, j, 0))
      {
        for k := 0 to b.dims.z
          invariant StoredUpTo(occ[..], g[..], b, sx, sz, d0, sqrt, cells, Key(i, j, k))
        {
          var at := Key(i, j, k);
          var cc := GridCentre(b, sx, sz, at);
          GridCentreIsCentre(b, sx, sz, at);
          var key := KeyOf(cc, sx, sz);
          ghost var prior := cells;
          FreshEntry(occ[..], g[..], b, sx, sz, d0, sqrt, cells, at);
          if occ[Flat(b.dims, at)] {
            cells := cells[key := ShellCell(key, sx, sz, INTERIOR)];
          } else {
            var d := sqrt(g[Flat(b.dims, at)]);
            if d < d0 {
              cells := cells[key := ShellCell(key, sx, sz, d)];
            }
          }
          StoreOneMore(occ[..], g[..], b, sx, sz, d0, sqrt, prior, cells, at);
        }
        StoredWraps(occ[..], g[..], b, sx, sz, d0, sqrt, cells, i, j);
      }
      StoredWraps(occ[..], g[..], b, sx, sz, d0, sqrt, cells, i, b.dims.y);
    }
  }

  lemma NothingStored(occ: seq<bool>, g: seq<real>, b: Block, sx: real, sz: real, d0: real, sqrt: real -> real)
    requires |occ| == Volume(b.dims) == |g|
    ensures StoredUpTo(occ, g, b, sx, sz, d0, sqrt, map[], Key(0, 0, 0))
  {
    hide EntryRight;
  }

  lemma FreshEntry(occ: seq<bool>, g: seq<real>, b: Block, sx: real, sz: real, d0: real, sqrt: real -> real,
                   cells: map<Key, EsdfCell>, at: Key)
    requires |occ| == Volume(b.dims) == |g| && StoredUpTo(occ, g, b, sx, sz, d0, sqrt, cells, at)
    ensures Global(b, at) !in cells
  {
    hide EntryRight;
  }

  lemma StoredWraps(occ: seq<bool>, g: seq<real>, b: Block, sx: real, sz: real, d0: real, sqrt: real -> real,
                    cells: map<Key, EsdfCell>, i: int, j: int)
    requires |occ| == Volume(b.dims) == |g|
    requires StoredUpTo(occ, g, b, sx, sz, d0, sqrt, cells, Key(i, j, b.dims.z))
             || (j == b.dims.y && StoredUpTo(occ, g, b, sx, sz, d0, sqrt, cells, Key(i, j, 0)))
    ensures j < b.dims.y ==> StoredUpTo(occ, g, b, sx, sz, d0, sqrt, cells, Key(i, j + 1, 0))
    ensures j == b.dims.y ==> StoredUpTo(occ, g, b, sx, sz, d0, sqrt, cells, Key(i + 1, 0, 0))
  {
    hide EntryRight;
  }

  // ---------------------------------------------------------------- the map

  /** The squared field of a block read in global voxels. */
  lemma FieldIsSquaredTo(occ: seq<bool>, b: Block, sp: Spacing, voxels: set<Key>, g: seq<real>, k: Key)
    requires MarksVoxels(occ, b, voxels) && Exact(AlongXYZ, occ, b.dims, sp, g) && InBlock(b, k)
    requires sp.x2 > 0.0 && sp.y2 > 0.0 && sp.z2 > 0.0
    ensures SquaredTo(Visible(voxels, b), sp, k, g[Flat(b.dims, Local(b, k))])
    ensures g[Flat(b.dims, Local(b, k))] >= 0.0
  {
    hide Flat, Volume, SqDist;
    var v := Local(b, k);
    var seen := Visible(voxels, b);
    forall w
      ensures Global(b, w) in seen <==> Seen(AlongXYZ, occ, b.dims, v, w)
      ensures SqDist(sp, k, Global(b, w)) == SqDist(sp, v, w) >= 0.0
    {
      assert Local(b, Global(b, w)) == w;
      SqDistShifts(b, sp, k, w);
    }
    assert forall u :: u in seen ==> Global(b, Local(b, u)) == u;
    assert Nearest(AlongXYZ, occ, b.dims, sp, v, g[Flat(b.dims, v)]);
    if seen != {} {
      var u :| u in seen;
      assert Seen(AlongXYZ, occ, b.dims, v, Local(b, u));
    }
  }

  lemma SqDistShifts(b: Block, sp: Spacing, k: Key, w: Key)
    requires sp.x2 > 0.0 && sp.y2 > 0.0 && sp.z2 > 0.0
    ensures SqDist(sp, k, Global(b, w)) == SqDist(sp, Local(b, k), w) >= 0.0
  {
    GapNonNegative(k.x, w.x + b.origin.x, sp.x2);
    GapNonNegative(k.y, w.y + b.origin.y, sp.y2);
    GapNonNegative(k.z, w.z + b.origin.z, sp.z2);
  }

  lemma GapNonNegative(i: int, j: int, s2: real)
    requires s2 > 0.0
    ensures Gap(i, j, s2) >= 0.0
  {
    var e := (i - j) as real;
    TimesSign(e, e);
    TimesSign(Times(e, e), s2);
    assert Gap(i, j, s2) == Times(Times(e, e), s2);
  }

  /** The stored cells of a block answer every voxel of it as a scan of the occupied voxels in
      the block does, and hold nothing outside it. */
  ghost predicate AnswersBlock(cells: map<Key, EsdfCell>, b: Block, sx: real, sz: real, d0: real, voxels: set<Key>) {
    && (forall k :: k in cells ==> InBlock(b, k) && cells[k].centre == CentreOf(k, sx, sz))
    && (forall k :: InBlock(b, k) ==> ScanAnswer(Visible(voxels, b), SpacingOf(sx, sz), d0, k, Answer(cells, d0, k)))
  }

  lemma StoredAnswersBlock(occ: seq<bool>, g: seq<real>, b: Block, sx: real, sz: real, d0: real, sqrt: real -> real,
                           voxels: set<Key>, cells: map<Key, EsdfCell>)
    requires sx > 0.0 && sz > 0.0 && IsSqrt(sqrt) && Times(d0, d0) <= INF_SQ
    requires MarksVoxels(occ, b, voxels) && Exact(AlongXYZ, occ, b.dims, SpacingOf(sx, sz), g)
    requires StoredUpTo(occ, g, b, sx, sz, d0, sqrt, cells, Key(b.dims.x, 0, 0))
    ensures AnswersBlock(cells, b, sx, sz, d0, voxels)
  {
    hide Flat, Volume, SqDist, Times, IsSqrt, Exact, ScanAnswer, SquaredTo, CentreOf, Square;
    var sp := SpacingOf(sx, sz);
    ExactLength(occ, b.dims, sp, g);
    forall k | InBlock(b, k)
      ensures k in cells ==> cells[k].centre == CentreOf(k, sx, sz)
      ensures ScanAnswer(Visible(voxels, b), sp, d0, k, Answer(cells, d0, k))
    {
      var v := Local(b, k);
      assert Global(b, v) == k && EntryRight(occ, g, b, sx, sz, d0, sqrt, cells, v);
      FieldIsSquaredTo(occ, b, sp, voxels, g, k);
      ShellAnswersScan(Visible(voxels, b), sp, d0, sqrt, k, g[Flat(b.dims, v)]);
    }
  }

  /** The distance map of a window: the answer for every voxel of the snapped block is the
      answer of a scan over the occupied voxels of the block. */
  method ComputeEsdf(l2: PlanningMap.MissionLocalPlanningMap, w: Window, d0: real, sampleSpacing: real, sqrt: real -> real)
    returns (cfg: EsdfConfig, cells: map<Key, EsdfCell>)
    requires l2.Valid() && IsSqrt(sqrt) && Times(d0, d0) <= INF_SQ
    requires var sx := Spacing2(l2, sampleSpacing);
             BelowSentinel(BlockFor(w, sx, l2.cfg.verticalCellSize).dims, SpacingOf(sx, l2.cfg.verticalCellSize))
    ensures cfg == EsdfConfig(Spacing2(l2, sampleSpacing), l2.cfg.verticalCellSize, d0, Spacing2(l2, sampleSpacing))
    ensures l2.cfg.cellSize <= cfg.cellSize && sampleSpacing <= cfg.cellSize
    ensures cfg.cellSize == l2.cfg.cellSize || cfg.cellSize == sampleSpacing
    ensures AnswersBlock(cells, BlockFor(w, cfg.cellSize, cfg.verticalCellSize), cfg.cellSize, cfg.verticalCellSize, d0,
                         OccupiedVoxels(l2, cfg.cellSize, cfg.verticalCellSize))
  {
    hide BlockFor, BelowSentinel, IsSqrt, Times, MarksVoxels, Exact, StoredUpTo, AnswersBlock, OccupiedVoxels, Square, Volume;
    var sx, sz := Spacing2(l2, sampleSpacing), l2.cfg.verticalCellSize;
    cfg := EsdfConfig(sx, sz, d0, sx);
    var b := BlockFor(w, sx, sz);
    ghost var voxels := OccupiedVoxels(l2, sx, sz);
    var occ := FillOccupancy(l2, b, sx, sz);
    MarkedLength(occ[..], b, voxels);
    var g3 := SquaredField(occ, b.dims, sx, sx, sz);
    ExactLength(occ[..], b.dims, SpacingOf(sx, sz), g3[..]);
    cells := StoreShell(occ, g3, b, sx, sz, d0, sqrt);
    StoredAnswersBlock(occ[..], g3[..], b, sx, sz, d0, sqrt, voxels, cells);
  }

  lemma MarkedLength(occ: seq<bool>, b: Block, voxels: set<Key>)
    requires MarksVoxels(occ, b, voxels)
    ensures |occ| == Volume(b.dims)
  {}

  lemma ExactLength(occ: seq<bool>, d: Dims, sp: Spacing, g: seq<real>)
    requires Exact(AlongXYZ, occ, d, sp, g)
    ensures |g| == Volume(d)
  {}

  /** What patching a window does to the stored cells: the block is answered afresh, cells
      erased outside the block are gone, and all other cells are untouched. */
  ghost predicate Patched(prior: map<Key, EsdfCell>, cells: map<Key, EsdfCell>, b: Block, erased: Bounds,
                          sx: real, sz: real, d0: real, voxels: set<Key>) {
    && (forall k :: InBlock(b, k) ==> ScanAnswer(Visible(voxels, b), SpacingOf(sx, sz), d0, k, Answer(cells, d0, k)))
    && (forall k :: !InBlock(b, k) && InBounds(CentreOf(k, sx, sz), erased) ==> k !in cells)
    && (forall k :: !InBlock(b, k) && !InBounds(CentreOf(k, sx, sz), erased) ==>
          (k in cells <==> k in prior) && (k in prior ==> cells[k] == prior[k]))
  }

  ghost predicate Centred(cells: map<Key, EsdfCell>, sx: real, sz: real) {
    forall k :: k in cells ==> cells[k].centre == CentreOf(k, sx, sz)
  }

  /** Erasing the box and merging the renewed block patches the map. */
  lemma EraseAndMergePatches(prior: map<Key, EsdfCell>, kept: map<Key, EsdfCell>, renewed: map<Key, EsdfCell>,
                             w: Window, sx: real, sz: real, d0: real, voxels: set<Key>)
    requires sx > 0.0 && sz > 0.0 && w.horizHalf >= 0.0 && w.vertHalf >= 0.0
    requires Centred(prior, sx, sz)
    requires kept == map k | k in prior && !InBounds(prior[k].centre, EraseBox(w, sx, sz)) :: prior[k]
    requires AnswersBlock(renewed, BlockFor(w, sx, sz), sx, sz, d0, voxels)
    ensures Patched(prior, kept + renewed, BlockFor(w, sx, sz), EraseBox(w, sx, sz), sx, sz, d0, voxels)
    ensures Centred(kept + renewed, sx, sz)
  {
    hide BlockFor, EraseBox, InBounds, CentreOf, ScanAnswer, InBlock;
    var b := BlockFor(w, sx, sz);
    forall k | InBlock(b, k)
      ensures Answer(kept + renewed, d0, k) == Answer(renewed, d0, k)
    {
      BlockInsideErasedBox(w, sx, sz, k);
    }
  }

  class LocalEsdfMap {
    const cfg: EsdfConfig
    var cells: map<Key, EsdfCell>

    ghost predicate Valid()
      reads this
    {
      cfg.cellSize > 0.0 && cfg.verticalCellSize > 0.0 && Centred(cells, cfg.cellSize, cfg.verticalCellSize)
    }

    /** The map was made at the resolution this planning map would give it again. */
    ghost predicate SameResolution(l2: PlanningMap.MissionLocalPlanningMap)
      reads l2
    {
      l2.Valid() && cfg.cellSize == Spacing2(l2, cfg.sampleSpacing) && cfg.verticalCellSize == l2.cfg.verticalCellSize
    }

    constructor (l2: PlanningMap.MissionLocalPlanningMap, w: Window, d0: real, sampleSpacing: real, sqrt: real -> real)
      requires l2.Valid() && IsSqrt(sqrt) && Times(d0, d0) <= INF_SQ
      requires var sx := Spacing2(l2, sampleSpacing);
               BelowSentinel(BlockFor(w, sx, l2.cfg.verticalCellSize).dims, SpacingOf(sx, l2.cfg.verticalCellSize))
      ensures Valid() && SameResolution(l2) && cfg.d0 == d0
      ensures AnswersBlock(cells, BlockFor(w, cfg.cellSize, cfg.verticalCellSize), cfg.cellSize, cfg.verticalCellSize, d0,
                           OccupiedVoxels(l2, cfg.cellSize, cfg.verticalCellSize))
    {
      hide BlockFor, BelowSentinel, IsSqrt, OccupiedVoxels, SpacingOf, ScanAnswer, Times;
      var made, renewed := ComputeEsdf(l2, w, d0, sampleSpacing, sqrt);
      cfg, cells := made, renewed;
    }

    function KeyForPoint(p: Vec3): Key
      requires cfg.cellSize > 0.0 && cfg.verticalCellSize > 0.0
    {
      KeyOf(p, cfg.cellSize, cfg.verticalCellSize)
    }

    /** Distance at a point; d0 where nothing is stored. */
    function Query(p: Vec3): real
      reads this
      requires cfg.cellSize > 0.0 && cfg.verticalCellSize > 0.0
    {
      Answer(cells, cfg.d0, KeyForPoint(p))
    }

    predicate IsClear(p: Vec3, r: real)
      reads this
      requires cfg.cellSize > 0.0 && cfg.verticalCellSize > 0.0
    {
      Query(p) >= r
    }

    /** Wherever the d0-ball of a position's voxel lies in a recomputed block, the map answers both
        queries as a scan of all occupied voxels would. */
    lemma PatchedQueryIsScan(prior: map<Key, EsdfCell>, b: Block, erased: Bounds, voxels: set<Key>, p: Vec3, r: real)
      requires Valid() && Patched(prior, cells, b, erased, cfg.cellSize, cfg.verticalCellSize, cfg.d0, voxels)
      requires var k := KeyOf(p, cfg.cellSize, cfg.verticalCellSize);
               InBlock(b, k) && BallInBlock(b, SpacingOf(cfg.cellSize, cfg.verticalCellSize), cfg.d0, k)
      requires 0.0 < r <= cfg.d0
      ensures var k, sp := KeyOf(p, cfg.cellSize, cfg.verticalCellSize), SpacingOf(cfg.cellSize, cfg.verticalCellSize);
              && ScanAnswer(voxels, sp, cfg.d0, k, Query(p))
              && (IsClear(p, r) <==> forall w :: w in voxels ==> SqDist(sp, k, w) >= Times(r, r))
              && (k in voxels ==> Query(p) == -0.5)
    {
      hide ScanAnswer, InBlock, BallInBlock, KeyOf, SpacingOf, InBounds, Times, SqDist;
      var k, sp := KeyOf(p, cfg.cellSize, cfg.verticalCellSize), SpacingOf(cfg.cellSize, cfg.verticalCellSize);
      BallIsEnough(voxels, b, sp, cfg.d0, k, Query(p));
      ClearMeansNothingNearer(voxels, sp, cfg.d0, k, Query(p), r);
      if k in voxels {
        InteriorAnswer(voxels, sp, cfg.d0, k, Query(p));
      }
    }

    /** Recomputes a window and merges it: the shared tail of both incremental updates. */
    method PatchWindow(l2: PlanningMap.MissionLocalPlanningMap, w: Window, d0: real, sqrt: real -> real)
      requires Valid() && SameResolution(l2) && IsSqrt(sqrt) && Times(d0, d0) <= INF_SQ
      requires w.horizHalf >= 0.0 && w.vertHalf >= 0.0
      requires BelowSentinel(BlockFor(w, cfg.cellSize, cfg.verticalCellSize).dims, SpacingOf(cfg.cellSize, cfg.verticalCellSize))
      modifies this
      ensures Valid()
      ensures Patched(old(cells), cells, BlockFor(w, cfg.cellSize, cfg.verticalCellSize),
                      EraseBox(w, cfg.cellSize, cfg.verticalCellSize), cfg.cellSize, cfg.verticalCellSize, d0,
                      OccupiedVoxels(l2, cfg.cellSize, cfg.verticalCellSize))
    {
      hide BlockFor, EraseBox, BelowSentinel, IsSqrt, OccupiedVoxels, Patched, AnswersBlock, Centred, Times, SpacingOf;
      ghost var prior := cells;
      var subCfg, renewed := ComputeEsdf(l2, w, d0, cfg.sampleSpacing, sqrt);
      var erased := EraseBox(w, cfg.cellSize, cfg.verticalCellSize);
      ghost var voxels := OccupiedVoxels(l2, cfg.cellSize, cfg.verticalCellSize);
      cells := map k | k in cells && !InBounds(cells[k].centre, erased) :: cells[k];
      EraseAndMergePatches(prior, cells, renewed, w, cfg.cellSize, cfg.verticalCellSize, d0, voxels);
      cells := cells + renewed;
    }

    /** Recomputes the window around changed positions. */
    method UpdateIncremental(l2: PlanningMap.MissionLocalPlanningMap, dirty: seq<Vec3>, d0: real, sqrt: real -> real)
      requires Valid() && SameResolution(l2) && IsSqrt(sqrt) && d0 >= 0.0 && Times(d0, d0) <= INF_SQ
      requires |dirty| > 0 ==>
                 BelowSentinel(BlockFor(WindowAround(BoundsOf(dirty), d0 + cfg.cellSize, d0 + cfg.verticalCellSize),
                                        cfg.cellSize, cfg.verticalCellSize).dims,
                               SpacingOf(cfg.cellSize, cfg.verticalCellSize))
      modifies this
      ensures Valid()
      ensures |dirty| == 0 ==> cells == old(cells)
      ensures |dirty| > 0 ==>
                IncrementalResult(old(cells), cells, dirty, cfg.cellSize, cfg.verticalCellSize, d0,
                                  OccupiedVoxels(l2, cfg.cellSize, cfg.verticalCellSize))
    {
      hide BlockFor, EraseBox, BelowSentinel, IsSqrt, OccupiedVoxels, Patched, Centred, Times, SpacingOf, IncrementalResult;
      if |dirty| == 0 {
        return;
      }
      var box := BoundingBox(dirty);
      var w := WindowAround(box, d0 + cfg.cellSize, d0 + cfg.verticalCellSize);
      PatchWindow(l2, w, d0, sqrt);
      AfterIncremental(old(cells), cells, dirty, cfg.cellSize, cfg.verticalCellSize, d0,
                       OccupiedVoxels(l2, cfg.cellSize, cfg.verticalCellSize));
    }

    /** Recomputes the window around a proposed path. */
    method UpdateTube(l2: PlanningMap.MissionLocalPlanningMap, waypoints: seq<Vec3>, radius: real, sqrt: real -> real)
      requires Valid() && SameResolution(l2) && IsSqrt(sqrt) && cfg.d0 >= 0.0 && radius >= 0.0 && Times(cfg.d0, cfg.d0) <= INF_SQ
      requires |waypoints| > 0 ==>
                 BelowSentinel(BlockFor(WindowAround(BoundsOf(waypoints), radius + cfg.d0 + cfg.cellSize, radius + cfg.d0 + cfg.verticalCellSize),
                                        cfg.cellSize, cfg.verticalCellSize).dims,
                               SpacingOf(cfg.cellSize, cfg.verticalCellSize))
      modifies this
      ensures Valid()
      ensures |waypoints| == 0 ==> cells == old(cells)
      ensures |waypoints| > 0 ==>
                TubeResult(old(cells), cells, waypoints, radius, cfg.cellSize, cfg.verticalCellSize, cfg.d0,
                           OccupiedVoxels(l2, cfg.cellSize, cfg.verticalCellSize))
    {
      hide BlockFor, EraseBox, BelowSentinel, IsSqrt, OccupiedVoxels, Patched, Centred, Times, SpacingOf, TubeResult;
      if |waypoints| == 0 {
        return;
      }
      var box := BoundingBox(waypoints);
      var w := WindowAround(box, radius + cfg.d0 + cfg.cellSize, radius + cfg.d0 + cfg.verticalCellSize);
      PatchWindow(l2, w, cfg.d0, sqrt);
      TubeIsExact(old(cells), cells, waypoints, radius, cfg.cellSize, cfg.verticalCellSize, cfg.d0,
                  OccupiedVoxels(l2, cfg.cellSize, cfg.verticalCellSize));
    }
  }

  ghost predicate InBall(c: Vec3, p: Vec3, radius: real) {
    Square(c.x - p.x) + Square(c.y - p.y) + Square(c.z - p.z) <= Square(radius)
  }

  /** The answer a is no further than an obstacle at squared distance r. */
  ghost predicate SeesWithin(a: real, r: real) {
    0.0 <= a && Times(a, a) <= r
  }

  /** Every voxel whose occupancy changed holds a reported position. */
  ghost predicate Reported(before: set<Key>, now: set<Key>, dirty: seq<Vec3>, sx: real, sz: real)
    requires sx > 0.0 && sz > 0.0
  {
    forall v :: (v in before <==> v !in now) ==> exists i :: 0 <= i < |dirty| && KeyOf(dirty[i], sx, sz) == v
  }

  /** Inside the recomputed block, k is occupied or no nearer obstacle was left outside the block; in
      the ring that is erased but not recomputed, k is free and nothing occupied is within d0. */
  ghost predicate StaysExact(now: set<Key>, w: Window, sx: real, sz: real, d0: real, k: Key)
    requires sx > 0.0 && sz > 0.0
  {
    var b, sp := BlockFor(w, sx, sz), SpacingOf(sx, sz);
    if InBlock(b, k) then k in now || !Shadowed(now, b, sp, d0, k)
    else InBounds(CentreOf(k, sx, sz), EraseBox(w, sx, sz)) ==> k !in now && forall u :: u in now ==> !Within(sp, d0, k, u)
  }

  /** What an incremental update promises, with the occupied voxels as they are now: every reported
      voxel answers as a scan of all of them; every free voxel within d0 of a reported obstacle
      answers no more than its distance; and an answer that was exact before is exact now if and
      only if StaysExact says so. */
  ghost predicate IncrementalResult(prior: map<Key, EsdfCell>, cells: map<Key, EsdfCell>, dirty: seq<Vec3>,
                                    sx: real, sz: real, d0: real, now: set<Key>)
    requires sx > 0.0 && sz > 0.0 && |dirty| > 0
  {
    var w, sp := WindowAround(BoundsOf(dirty), d0 + sx, d0 + sz), SpacingOf(sx, sz);
    && Patched(prior, cells, BlockFor(w, sx, sz), EraseBox(w, sx, sz), sx, sz, d0, now)
    && (forall i :: 0 <= i < |dirty| ==> ScanAnswer(now, sp, d0, KeyOf(dirty[i], sx, sz), Answer(cells, d0, KeyOf(dirty[i], sx, sz))))
    && (forall i, k :: 0 <= i < |dirty| && k !in now && KeyOf(dirty[i], sx, sz) in now && Within(sp, d0, k, KeyOf(dirty[i], sx, sz)) ==>
          SeesWithin(Answer(cells, d0, k), SqDist(sp, k, KeyOf(dirty[i], sx, sz))))
    && (forall before: set<Key>, k :: Reported(before, now, dirty, sx, sz) && ScanAnswer(before, sp, d0, k, Answer(prior, d0, k)) ==>
          (ScanAnswer(now, sp, d0, k, Answer(cells, d0, k)) <==> StaysExact(now, w, sx, sz, d0, k)))
  }

  lemma AfterIncremental(prior: map<Key, EsdfCell>, cells: map<Key, EsdfCell>, dirty: seq<Vec3>, sx: real, sz: real, d0: real, now: set<Key>)
    requires sx > 0.0 && sz > 0.0 && d0 >= 0.0 && |dirty| > 0
    requires var w := WindowAround(BoundsOf(dirty), d0 + sx, d0 + sz);
             Patched(prior, cells, BlockFor(w, sx, sz), EraseBox(w, sx, sz), sx, sz, d0, now)
    ensures IncrementalResult(prior, cells, dirty, sx, sz, d0, now)
  {
    hide Patched, ScanAnswer, SpacingOf, KeyOf, Within, StaysExact, BlockFor, EraseBox, Reported, SeesWithin, SqDist;
    forall i | 0 <= i < |dirty|
      ensures ScanAnswer(now, SpacingOf(sx, sz), d0, KeyOf(dirty[i], sx, sz), Answer(cells, d0, KeyOf(dirty[i], sx, sz)))
    {
      DirtyVoxelsAreExact(prior, cells, dirty, i, sx, sz, d0, now);
    }
    forall i, k | 0 <= i < |dirty| && k !in now && KeyOf(dirty[i], sx, sz) in now && Within(SpacingOf(sx, sz), d0, k, KeyOf(dirty[i], sx, sz))
      ensures SeesWithin(Answer(cells, d0, k), SqDist(SpacingOf(sx, sz), k, KeyOf(dirty[i], sx, sz)))
    {
      NewObstacleIsSeen(prior, cells, dirty, i, sx, sz, d0, now, k);
    }
    forall before: set<Key>, k | Reported(before, now, dirty, sx, sz) && ScanAnswer(before, SpacingOf(sx, sz), d0, k, Answer(prior, d0, k))
      ensures ScanAnswer(now, SpacingOf(sx, sz), d0, k, Answer(cells, d0, k)) <==>
              StaysExact(now, WindowAround(BoundsOf(dirty), d0 + sx, d0 + sz), sx, sz, d0, k)
    {
      IncrementalIsExactIff(prior, cells, dirty, sx, sz, d0, before, now, k);
    }
  }

  lemma WithinSymmetric(sp: Spacing, d0: real, k: Key, w: Key)
    ensures SqDist(sp, k, w) == SqDist(sp, w, k)
    ensures Within(sp, d0, k, w) <==> Within(sp, d0, w, k)
  {
    hide Gap;
    GapSymmetric(k.x, w.x, sp.x2);
    GapSymmetric(k.y, w.y, sp.y2);
    GapSymmetric(k.z, w.z, sp.z2);
  }

  lemma GapSymmetric(i: int, j: int, s2: real)
    ensures Gap(i, j, s2) == Gap(j, i, s2)
  {
    assert (i - j) as real * (i - j) as real == (j - i) as real * (j - i) as real;
  }

  /** Every free voxel within d0 of an obstacle at a reported position answers no more than its
      distance from that obstacle. */
  lemma NewObstacleIsSeen(prior: map<Key, EsdfCell>, cells: map<Key, EsdfCell>, dirty: seq<Vec3>, i: nat,
                          sx: real, sz: real, d0: real, now: set<Key>, k: Key)
    requires sx > 0.0 && sz > 0.0 && d0 >= 0.0 && i < |dirty|
    requires var w := WindowAround(BoundsOf(dirty), d0 + sx, d0 + sz);
             Patched(prior, cells, BlockFor(w, sx, sz), EraseBox(w, sx, sz), sx, sz, d0, now)
    requires k !in now && KeyOf(dirty[i], sx, sz) in now && Within(SpacingOf(sx, sz), d0, k, KeyOf(dirty[i], sx, sz))
    ensures SeesWithin(Answer(cells, d0, k), SqDist(SpacingOf(sx, sz), k, KeyOf(dirty[i], sx, sz)))
  {
    hide BlockFor, EraseBox, InBounds, InBlock, KeyOf, SpacingOf, CentreOf, Within, WindowAround, SqDist, Times;
    var w := KeyOf(dirty[i], sx, sz);
    var b := BlockFor(WindowAround(BoundsOf(dirty), d0 + sx, d0 + sz), sx, sz);
    DirtyVoxelHasItsBall(BoundsOf(dirty), d0, sx, sz, dirty[i]);
    WithinSymmetric(SpacingOf(sx, sz), d0, k, w);
    assert InBlock(b, w) && InBlock(b, k) && w in Visible(now, b);
  }

  /** What a tube update promises: every voxel whose centre is within the radius of a waypoint
      answers as a scan of all occupied voxels. */
  ghost predicate TubeResult(prior: map<Key, EsdfCell>, cells: map<Key, EsdfCell>, waypoints: seq<Vec3>, radius: real,
                             sx: real, sz: real, d0: real, now: set<Key>)
    requires sx > 0.0 && sz > 0.0 && |waypoints| > 0
  {
    var w := WindowAround(BoundsOf(waypoints), radius + d0 + sx, radius + d0 + sz);
    && Patched(prior, cells, BlockFor(w, sx, sz), EraseBox(w, sx, sz), sx, sz, d0, now)
    && (forall i, k :: 0 <= i < |waypoints| && InBall(CentreOf(k, sx, sz), waypoints[i], radius) ==>
          ScanAnswer(now, SpacingOf(sx, sz), d0, k, Answer(cells, d0, k)))
  }

  lemma TubeIsExact(prior: map<Key, EsdfCell>, cells: map<Key, EsdfCell>, waypoints: seq<Vec3>, radius: real,
                    sx: real, sz: real, d0: real, now: set<Key>)
    requires sx > 0.0 && sz > 0.0 && d0 >= 0.0 && radius >= 0.0 && |waypoints| > 0
    requires var w := WindowAround(BoundsOf(waypoints), radius + d0 + sx, radius + d0 + sz);
             Patched(prior, cells, BlockFor(w, sx, sz), EraseBox(w, sx, sz), sx, sz, d0, now)
    ensures TubeResult(prior, cells, waypoints, radius, sx, sz, d0, now)
  {
    hide BlockFor, EraseBox, InBounds, ScanAnswer, InBlock, BallInBlock, SpacingOf, CentreOf, WindowAround, Square;
    var b := BlockFor(WindowAround(BoundsOf(waypoints), radius + d0 + sx, radius + d0 + sz), sx, sz);
    forall i, k | 0 <= i < |waypoints| && InBall(CentreOf(k, sx, sz), waypoints[i], radius)
      ensures ScanAnswer(now, SpacingOf(sx, sz), d0, k, Answer(cells, d0, k))
    {
      TubeVoxelHasItsBall(BoundsOf(waypoints), radius, d0, sx, sz, waypoints[i], k);
      BallIsEnough(now, b, SpacingOf(sx, sz), d0, k, Answer(cells, d0, k));
    }
  }

  method BoundingBox(ps: seq<Vec3>) returns (b: Bounds)
    requires |ps| > 0
    ensures b == BoundsOf(ps)
  {
    hide Widened;
    b := Bounds(ps[0], ps[0]);
    WidenedSelf(ps[0]);
    for i := 0 to |ps|
      invariant b == BoundsOf(if i == 0 then [ps[0]] else ps[..i])
    {
      b := Widened(b, ps[i]);
      assert ps[..i + 1][..i] == ps[..i];
    }
    assert ps[..|ps|] == ps;
  }

  lemma WidenedSelf(p: Vec3)
    ensures Widened(Bounds(p, p), p) == Bounds(p, p)
  {}

  /** After an incremental update every voxel that holds a changed position answers exactly as
      a scan of the whole planning map. */
  lemma DirtyVoxelsAreExact(prior: map<Key, EsdfCell>, cells: map<Key, EsdfCell>, dirty: seq<Vec3>, i: nat,
                            sx: real, sz: real, d0: real, voxels: set<Key>)
    requires sx > 0.0 && sz > 0.0 && d0 >= 0.0 && i < |dirty|
    requires var w := WindowAround(BoundsOf(dirty), d0 + sx, d0 + sz);
             Patched(prior, cells, BlockFor(w, sx, sz), EraseBox(w, sx, sz), sx, sz, d0, voxels)
    ensures ScanAnswer(voxels, SpacingOf(sx, sz), d0, KeyOf(dirty[i], sx, sz), Answer(cells, d0, KeyOf(dirty[i], sx, sz)))
  {
    hide BlockFor, EraseBox, InBounds, ScanAnswer, InBlock, BallInBlock, KeyOf, SpacingOf, CentreOf;
    var k := KeyOf(dirty[i], sx, sz);
    var b := BlockFor(WindowAround(BoundsOf(dirty), d0 + sx, d0 + sz), sx, sz);
    DirtyVoxelHasItsBall(BoundsOf(dirty), d0, sx, sz, dirty[i]);
    BallIsEnough(voxels, b, SpacingOf(sx, sz), d0, k, Answer(cells, d0, k));
  }

  // ---------------------------------------------------------------- when a patched map is exact

  /** A scan only looks at the voxel itself and at its d0-ball. */
  lemma ScanIsLocal(before: set<Key>, now: set<Key>, sp: Spacing, d0: real, k: Key, a: real)
    requires k in before <==> k in now
    requires forall w :: Within(sp, d0, k, w) ==> (w in before <==> w in now)
    requires ScanAnswer(before, sp, d0, k, a)
    ensures ScanAnswer(now, sp, d0, k, a)
  {
    hide SqDist, Times;
    if k !in before {
      if w0 :| w0 in before && Within(sp, d0, k, w0) {
        var near :| near in before && Within(sp, d0, k, near) && Times(a, a) == SqDist(sp, k, near);
        assert near in now;
      }
    }
  }

  /** A voxel whose centre is outside the erased box is not within d0 of any changed voxel. */
  lemma OutsideErasedIsFar(b: Bounds, d0: real, sx: real, sz: real, p: Vec3, k: Key)
    requires sx > 0.0 && sz > 0.0 && d0 >= 0.0 && InBounds(p, b)
    requires !InBounds(CentreOf(k, sx, sz), EraseBox(WindowAround(b, d0 + sx, d0 + sz), sx, sz))
    ensures KeyOf(p, sx, sz) != k && !Within(SpacingOf(sx, sz), d0, k, KeyOf(p, sx, sz))
  {
    hide Edge, FloorDiv, Within, Mid;
    var w := KeyOf(p, sx, sz);
    if w == k || Within(SpacingOf(sx, sz), d0, k, w) {
      if w != k {
        NearOnEveryAxis(sx, sz, d0, k, w);
      }
      AxisNear(p.x, w.x, k.x, sx, d0);
      AxisNear(p.y, w.y, k.y, sx, d0);
      AxisNear(p.z, w.z, k.z, sz, d0);
    }
  }

  lemma AxisNear(p: real, w: int, k: int, s: real, d0: real)
    requires s > 0.0 && d0 >= 0.0 && Edge(w, s) <= p < Edge(w + 1, s)
    requires w == k || -d0 < Edge(w - k, s) < d0
    ensures p - d0 - s <= Mid(k, s) <= p + d0 + s
  {
    hide Edge, Mid;
    MidOfSlab(k, s);
    EdgeAdd(k, w - k, s);
    EdgeStep(w, s);
  }

  /** The incremental update is advertised as equivalent to a full recompute.  Starting from an
      exact answer for k, with every changed voxel reported dirty, the patched answer is exact if
      and only if StaysExact says so.  Outside the erased box it always is. */
  lemma IncrementalIsExactIff(prior: map<Key, EsdfCell>, cells: map<Key, EsdfCell>, dirty: seq<Vec3>,
                              sx: real, sz: real, d0: real, before: set<Key>, now: set<Key>, k: Key)
    requires sx > 0.0 && sz > 0.0 && d0 >= 0.0 && |dirty| > 0
    requires ScanAnswer(before, SpacingOf(sx, sz), d0, k, Answer(prior, d0, k))
    requires Reported(before, now, dirty, sx, sz)
    requires var w := WindowAround(BoundsOf(dirty), d0 + sx, d0 + sz);
             Patched(prior, cells, BlockFor(w, sx, sz), EraseBox(w, sx, sz), sx, sz, d0, now)
    ensures ScanAnswer(now, SpacingOf(sx, sz), d0, k, Answer(cells, d0, k)) <==>
            StaysExact(now, WindowAround(BoundsOf(dirty), d0 + sx, d0 + sz), sx, sz, d0, k)
  {
    hide BlockFor, EraseBox, InBounds, ScanAnswer, InBlock, Shadowed, KeyOf, SpacingOf, CentreOf, Within, WindowAround;
    var w := WindowAround(BoundsOf(dirty), d0 + sx, d0 + sz);
    var b, sp := BlockFor(w, sx, sz), SpacingOf(sx, sz);
    if InBlock(b, k) {
      BlockAnswerIsExactIff(now, b, sp, d0, k, Answer(cells, d0, k));
    } else if InBounds(CentreOf(k, sx, sz), EraseBox(w, sx, sz)) {
      ErasedAnswerIsExactIff(now, sp, d0, k);
    } else {
      forall i | 0 <= i < |dirty|
        ensures KeyOf(dirty[i], sx, sz) != k && !Within(sp, d0, k, KeyOf(dirty[i], sx, sz))
      {
        OutsideErasedIsFar(BoundsOf(dirty), d0, sx, sz, dirty[i], k);
      }
      ScanIsLocal(before, now, sp, d0, k, Answer(cells, d0, k));
    }
  }

  /** Both ways of being inexact happen.  One-metre voxels, d0 = 5, one changed position in
      voxel 0 and an obstacle six voxels away: whatever was stored before, afterwards the
      obstacle's own voxel answers "clear to 5 m", and so does the voxel two metres from it. */
  lemma IncrementalLosesObstacle(prior: map<Key, EsdfCell>, cells: map<Key, EsdfCell>)
    requires var w := WindowAround(BoundsOf([Vec3(0.5, 0.5, 0.5)]), 6.0, 6.0);
             Patched(prior, cells, BlockFor(w, 1.0, 1.0), EraseBox(w, 1.0, 1.0), 1.0, 1.0, 5.0, {Key(6, 0, 0)})
    ensures Answer(cells, 5.0, Key(6, 0, 0)) == 5.0
    ensures Answer(cells, 5.0, Key(4, 0, 0)) == 5.0 && SqDist(SpacingOf(1.0, 1.0), Key(4, 0, 0), Key(6, 0, 0)) == 4.0
  {
    hide ScanAnswer, SqDist, CeilDiv, FloorDiv;
    var w := WindowAround(BoundsOf([Vec3(0.5, 0.5, 0.5)]), 6.0, 6.0);
    assert w == Window(Vec3(0.5, 0.5, 0.5), 6.0, 6.0);
    ExampleBlock(w);
    var b := BlockFor(w, 1.0, 1.0);
    assert !InBlock(b, Key(6, 0, 0)) && InBlock(b, Key(4, 0, 0));
    assert CentreOf(Key(6, 0, 0), 1.0, 1.0) == Vec3(6.5, 0.5, 0.5);
    assert Visible({Key(6, 0, 0)}, b) == {};
    ExampleDistances();
    EmptyScan(SpacingOf(1.0, 1.0), 5.0, Key(4, 0, 0), Answer(cells, 5.0, Key(4, 0, 0)));
  }

  lemma EmptyScan(sp: Spacing, d0: real, k: Key, a: real)
    requires ScanAnswer({}, sp, d0, k, a)
    ensures a == d0
  {}

  lemma ExampleBlock(w: Window)
    requires w == Window(Vec3(0.5, 0.5, 0.5), 6.0, 6.0)
    ensures BlockFor(w, 1.0, 1.0) == Block(Key(-6, -6, -6), Dims(12, 12, 12))
  {
    assert Edge(11, 1.0) == 11.0 && Edge(12, 1.0) == 12.0;
    assert Edge(-6, 1.0) == -6.0 && Edge(-5, 1.0) == -5.0;
    CeilDivUnique(12.0, 1.0, 12);
    FloorDivUnique(-5.5, 1.0, -6);
  }

  lemma CeilDivUnique(x: real, s: real, k: int)
    requires s > 0.0 && Edge(k - 1, s) < x <= Edge(k, s)
    ensures CeilDiv(x, s) == k
  {
    hide Edge, CeilDiv;
    var c := CeilDiv(x, s);
    EdgeMono(c, k - 1, s);
    EdgeMono(k, c - 1, s);
  }

  lemma ExampleDistances()
    ensures SqDist(SpacingOf(1.0, 1.0), Key(4, 0, 0), Key(6, 0, 0)) == 4.0
  {
    assert Square(1.0) == 1.0;
    assert Gap(4, 6, 1.0) == 4.0 && Gap(0, 0, 1.0) == 0.0;
  }
}
