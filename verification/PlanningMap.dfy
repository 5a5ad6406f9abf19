/** Level 2: the persistent planning map as the runtime keeps it -- vector, index, buckets and
    flush sets updated in place -- proved to follow PlanningSpec step by step. */
module PlanningMap {
  import opened Wrappers
  import opened Grid
  import opened PlanningSpec
  import opened KeyedVector
  import opened CellStore
  import opened Replica
  import opened RayMarch
  import FlushProtocol

  class MissionLocalPlanningMap {
    const cfg: Config
    const sigmoid: real -> real
    var cells: seq<StoredCell>
    var index: map<Key, nat>
    var buckets: map<Key, set<Key>>
    var dirty: map<Key, Cell>
    var evicted: set<Key>
    var mapSeq: nat
    var lastSlide: Vec3
    var slideInitialized: bool

    /** The three containers are in exact one-to-one agreement. */
    ghost predicate InStep()
      reads this
    {
      && Sane(cfg)
      && Positive(sigmoid)
      && IndexOk(cells, index)
      && BucketsOk(index.Keys, buckets)
    }

    ghost function Live(): map<Key, Entry>
      reads this
      requires InStep()
    {
      Contents(cells, index)
    }

    ghost function Abstract(): State
      reads this
      requires InStep()
    {
      State(Live(), dirty, evicted, mapSeq)
    }

    ghost predicate Valid()
      reads this
    {
      InStep() && WellFormed(cfg, Abstract())
    }

    constructor (config: Config, sigmoid: real -> real)
      requires Positive(sigmoid)
      ensures Valid() && Live() == map[] && dirty == map[] && evicted == {} && mapSeq == 0
      ensures this.sigmoid == sigmoid
      ensures Sane(config) ==> cfg == config
      ensures cfg == config.(cellSize := cfg.cellSize, verticalCellSize := cfg.verticalCellSize,
                             minOccupiedScore := cfg.minOccupiedScore, logOddsMax := cfg.logOddsMax)
      ensures config.cellSize <= 0.0 ==> cfg.cellSize == 1.0
      ensures config.verticalCellSize <= 0.0 ==> cfg.verticalCellSize == 2.0
      ensures config.minOccupiedScore <= 0.0 ==> cfg.minOccupiedScore == 0.5
      ensures config.logOddsMax <= 0.0 ==> cfg.logOddsMax == 8.0
    {
      cfg := config.(
        cellSize := if config.cellSize > 0.0 then config.cellSize else 1.0,
        verticalCellSize := if config.verticalCellSize > 0.0 then config.verticalCellSize else 2.0,
        minOccupiedScore := if config.minOccupiedScore > 0.0 then config.minOccupiedScore else 0.5,
        logOddsMax := if config.logOddsMax > 0.0 then config.logOddsMax else 8.0);
      this.sigmoid := sigmoid;
      cells, index, buckets := [], map[], map[];
      dirty, evicted, mapSeq := map[], {}, 0;
      lastSlide, slideInitialized := Vec3(0.0, 0.0, 0.0), false;
    }

    /** Appends a cell for a key that is not in memory. */
    method Append(k: Key, cell: Cell, seqNo: nat)
      requires InStep() && k !in index
      modifies `cells, `index, `buckets
      ensures InStep() && Live() == old(Live())[k := Entry(cell, seqNo)]
    {
      hide BucketsOk, IndexOk, BucketInsert, Contents;
      PushPuts(cells, index, k, Entry(cell, seqNo));
      BucketInsertKeeps(index.Keys, buckets, k);
      assert index[k := |cells|].Keys == index.Keys + {k};
      cells := cells + [Keyed(k, Entry(cell, seqNo))];
      index := index[k := |cells| - 1];
      buckets := BucketInsert(buckets, k);
    }

    /** Overwrites the cell of a key that is in memory. */
    method Rewrite(k: Key, cell: Cell, seqNo: nat)
      requires InStep() && k in index
      modifies `cells
      ensures InStep() && Live() == old(Live())[k := Entry(cell, seqNo)]
    {
      hide BucketsOk, Contents;
      RewritePuts(cells, index, k, Entry(cell, seqNo));
      cells := cells[index[k] := Keyed(k, Entry(cell, seqNo))];
    }

    /** Swap-with-last removal. */
    method RemoveCellByKey(k: Key)
      requires InStep()
      modifies `cells, `index, `buckets
      ensures InStep() && Live() == old(Live()) - {k}
    {
      hide BucketsOk, IndexOk, BucketRemove, Contents, Sane, Positive;
      if k !in index {
        MissingKey(cells, index, k);
        return;
      }
      SwapPopRemoves(cells, index, k);
      BucketRemoveKeeps(index.Keys, buckets, k);
      ghost var keys := index.Keys;
      var idx := index[k];
      var last := |cells| - 1;
      ghost var popped := SwapPop(cells, idx);
      if idx != last {
        cells := cells[idx := cells[last]];
        index := index[cells[idx].key := idx];
      }
      cells := cells[..last];
      index := index - {k};
      assert cells == popped;
      assert index.Keys == keys - {k};
      buckets := BucketRemove(buckets, k);
    }

    /** One evidence cell of a tick. */
    method ObserveCell(c: L1Cell, now: int, wrote: seq<(Key, Cell)>, cleared: seq<Key>)
      returns (wrote': seq<(Key, Cell)>, cleared': seq<Key>)
      requires InStep()
      modifies `cells, `index, `buckets
      ensures InStep()
      ensures Tick(Live(), wrote', cleared') ==
              Observe(cfg, sigmoid, mapSeq, now, Tick(old(Live()), wrote, cleared), c)
    {
      hide BucketsOk, Positive, CellKey, CellCentre;
      wrote', cleared' := wrote, cleared;
      var occupied := c.state.Occupied? || c.state.Mixed?;
      var free := c.state.ObservedFree?;
      if !occupied && !free {
        return;
      }
      var k := CellKey(cfg, c.centre);
      if occupied && c.score >= cfg.minOccupiedScore {
        if k in index {
          var cell := Reinforced(cfg, sigmoid, cells[index[k]].value.cell, c, now);
          Rewrite(k, cell, mapSeq);
          wrote' := wrote + [(k, cell)];
        } else {
          var cell := Created(cfg, sigmoid, k, c, now);
          Append(k, cell, mapSeq);
          wrote' := wrote + [(k, cell)];
        }
      } else if free {
        if k in index {
          var sc := cells[index[k]];
          var cell := Weakened(cfg, sigmoid, sc.value.cell, c);
          if cell.logOdds < cfg.evictionThreshold {
            Rewrite(k, cell, sc.value.writeSeq);
            cleared' := cleared + [k];
          } else {
            Rewrite(k, cell, mapSeq);
            wrote' := wrote + [(k, cell)];
          }
        }
      }
    }

    /** Removes the candidate keys whose cell still carries the zero sentinel. */
    method EvictClearedCells(candidates: seq<Key>)
      requires InStep()
      modifies `cells, `index, `buckets
      ensures InStep() && Live() == Swept(old(Live()), candidates)
    {
      hide BucketsOk, IndexOk, Positive;
      ghost var live := Live();
      for i := 0 to |candidates|
        invariant InStep() && Live() == Swept(live, candidates[..i])
      {
        assert candidates[..i + 1] == candidates[..i] + [candidates[i]];
        var k := candidates[i];
        SweepStep(live, candidates[..i], k);
        if k in index {
          LiveAt(k);
          if !(cells[index[k]].value.cell.score > 0.0) {
            RemoveCellByKey(k);
          }
        } else {
          assert k !in Live();
        }
      }
      assert candidates[..|candidates|] == candidates;
    }

    lemma LiveAt(k: Key)
      requires InStep() && k in index
      ensures index[k] < |cells| && k in Live()
      ensures Live()[k] == cells[index[k]].value
    {}

    static lemma SweepStep(live: map<Key, Entry>, ks: seq<Key>, k: Key)
      ensures var done := Swept(live, ks);
              Swept(live, ks + [k]) == if k in done && done[k].cell.score <= 0.0 then done - {k} else done
    {}

    /** One tick: merges level 1 evidence, sweeps what it cleared, and records what has to be
        flushed. */
    method UpdateFromTraversability(source: seq<L1Cell>, now: int)
      requires Valid()
      modifies this
      ensures Valid() && Abstract() == Updated(cfg, sigmoid, now, old(Abstract()), source)
    {
      hide BucketsOk, IndexOk, Contents, Observe, WellFormed, Swept;
      ghost var before := Abstract();
      UpdatedIsWellFormed(cfg, sigmoid, now, before, source);
      mapSeq := mapSeq + 1;
      var wrote: seq<(Key, Cell)>, cleared: seq<Key> := [], [];
      ghost var start := Tick(Live(), [], []);
      for i := 0 to |source|
        invariant InStep() && dirty == before.dirty && evicted == before.evicted && mapSeq == before.mapSeq + 1
        invariant Tick(Live(), wrote, cleared) == ObserveAll(cfg, sigmoid, mapSeq, now, start, source[..i])
      {
        wrote, cleared := ObserveCell(source[i], now, wrote, cleared);
        assert source[..i + 1][..i] == source[..i];
      }
      assert source[..|source|] == source;
      SweepNothing(Live());
      if cleared != [] {
        EvictClearedCells(cleared);
      }
      MarkForFlush(wrote, cleared);
    }

    static lemma SweepNothing(live: map<Key, Entry>)
      ensures Swept(live, []) == live
    {}

    /** Merges the rows and keys of a tick into the sets the flush drains. */
    method MarkForFlush(wrote: seq<(Key, Cell)>, cleared: seq<Key>)
      modifies `dirty, `evicted
      ensures dirty == Overwritten(old(dirty), wrote) - Keys(cleared)
      ensures evicted == old(evicted) + Keys(cleared)
    {
      for i := 0 to |wrote|
        invariant dirty == Overwritten(old(dirty), wrote[..i]) && evicted == old(evicted)
      {
        dirty := dirty[wrote[i].0 := wrote[i].1];
        assert wrote[..i + 1][..i] == wrote[..i];
      }
      assert wrote[..|wrote|] == wrote;
      for i := 0 to |cleared|
        invariant dirty == Overwritten(old(dirty), wrote) - Keys(cleared[..i])
        invariant evicted == old(evicted) + Keys(cleared[..i])
      {
        assert Keys(cleared[..i + 1]) == Keys(cleared[..i]) + {cleared[i]};
        dirty := dirty - {cleared[i]};
        evicted := evicted + {cleared[i]};
      }
      assert cleared[..|cleared|] == cleared;
    }

    /** Drains the marked rows and keys for the flush thread. */
    method DrainForFlush() returns (b: FlushProtocol.Batch)
      requires Valid()
      modifies `dirty, `evicted
      ensures Valid() && b == FlushProtocol.Batch(old(dirty), old(evicted))
      ensures Abstract() == old(Abstract()).(dirty := map[], evicted := {})
    {
      hide BucketsOk, IndexOk, Contents, Positive, CellCentre;
      b := FlushProtocol.Batch(dirty, evicted);
      dirty, evicted := map[], {};
    }

    method Reset()
      requires Valid()
      modifies `cells, `index, `buckets, `mapSeq
      ensures Valid() && Live() == map[] && mapSeq == 0
    {
      cells, index, buckets, mapSeq := [], map[], map[], 0;
    }

    /** The cells written after a sequence number, in vector order. */
    method Snapshot(since: nat) returns (snap: seq<Cell>)
      requires Valid()
      ensures IsDelta(Live(), since, snap) && |snap| == |LateKeys(Live(), since)|
    {
      hide BucketsOk, WellFormed;
      snap := [];
      for i := 0 to |cells|
        invariant snap == WrittenAfter(cells[..i], since)
      {
        assert cells[..i + 1][..i] == cells[..i];
        if cells[i].value.writeSeq > since {
          snap := snap + [cells[i].value.cell];
        }
      }
      assert cells[..|cells|] == cells;
      WrittenAfterIsDelta(cells, index, since);
      WrittenAfterCount(cells, index, since);
    }

    // -------------------------------------------------------------- box query

    /** The cell of k passes the exact score and containment test. */
    ghost predicate Matches(box: Bounds, k: Key)
      reads this
      requires InStep()
    {
      k in Live() && Live()[k].cell.score >= cfg.minOccupiedScore && InBounds(Live()[k].cell.centre, box)
    }

    /** The result so far holds each matching cell of the scanned keys once and nothing else. */
    ghost predicate Collected(box: Bounds, scanned: set<Key>, result: seq<StoredCell>)
      reads this
      requires InStep()
    {
      && (forall k :: k in scanned && Matches(box, k) ==> cells[index[k]] in result)
      && (forall sc :: sc in result ==> sc.key in scanned && Matches(box, sc.key) && sc == cells[index[sc.key]])
      && (forall i, j :: 0 <= i < j < |result| ==> result[i].key != result[j].key)
    }

    method ScanBucket(box: Bounds, bucket: set<Key>, ghost scanned: set<Key>, result: seq<StoredCell>)
      returns (result': seq<StoredCell>)
      requires InStep() && bucket <= index.Keys && bucket !! scanned && Collected(box, scanned, result)
      ensures Collected(box, scanned + bucket, result')
    {
      hide BucketsOk, Positive;
      result' := result;
      var rest := bucket;
      ghost var seen := scanned;
      while rest != {}
        invariant rest <= bucket && seen == scanned + (bucket - rest) && rest !! seen
        invariant Collected(box, seen, result')
      {
        var k :| k in rest;
        rest := rest - {k};
        seen := seen + {k};
        LiveAt(k);
        var entry := cells[index[k]];
        if entry.value.cell.score >= cfg.minOccupiedScore && InBounds(entry.value.cell.centre, box) {
          result' := result' + [entry];
        }
      }
      assert seen == scanned + bucket;
    }

    /** Walks only the buckets the box overlaps, yet returns exactly what a scan of every cell
        with the score and containment tests would, each cell once. */
    method OccupiedCellsInBox(box: Bounds) returns (result: seq<StoredCell>)
      requires Valid()
      ensures forall sc :: sc in result <==>
                sc in cells && sc.value.cell.score >= cfg.minOccupiedScore && InBounds(sc.value.cell.centre, box)
      ensures forall i, j :: 0 <= i < j < |result| ==> result[i].key != result[j].key
    {
      hide BucketsOk, Positive, WellFormed, BucketOf, BucketKeys, Contents, IndexOk, Collected, Visited;
      var lo := BucketOf(CellKey(cfg, box.min));
      var hi := BucketOf(CellKey(cfg, box.max));
      result := [];
      NothingCollected(box);
      VisitWraps(index.Keys, lo, hi, lo);
      var at := lo;
      while at.x <= hi.x
        invariant at.y == lo.y && at.z == lo.z && lo.x <= at.x
        invariant Collected(box, Visited(index.Keys, lo, hi, at), result)
        decreases hi.x - at.x
      {
        ghost var x := at.x;
        while at.y <= hi.y
          invariant at.x == x && at.z == lo.z && lo.y <= at.y
          invariant Collected(box, Visited(index.Keys, lo, hi, at), result)
          decreases hi.y - at.y
        {
          ghost var y := at.y;
          while at.z <= hi.z
            invariant at.x == x && at.y == y && lo.z <= at.z
            invariant Collected(box, Visited(index.Keys, lo, hi, at), result)
            decreases hi.z - at.z
          {
            VisitBucket(index.Keys, buckets, lo, hi, at);
            result := ScanBucket(box, BucketKeys(buckets, at), Visited(index.Keys, lo, hi, at), result);
            at := at.(z := at.z + 1);
          }
          VisitWraps(index.Keys, lo, hi, at);
          at := Key(at.x, at.y + 1, lo.z);
        }
        VisitWraps(index.Keys, lo, hi, at);
        at := Key(at.x + 1, lo.y, lo.z);
      }
      AllCollected(box, lo, hi, at, result);
    }

    lemma NothingCollected(box: Bounds)
      requires InStep()
      ensures Collected(box, {}, [])
    {}

    lemma AllCollected(box: Bounds, lo: Key, hi: Key, at: Key, result: seq<StoredCell>)
      requires Valid() && at.x > hi.x
      requires lo == BucketOf(CellKey(cfg, box.min)) && hi == BucketOf(CellKey(cfg, box.max))
      requires Collected(box, Visited(index.Keys, lo, hi, at), result)
      ensures forall sc :: sc in result <==>
                sc in cells && sc.value.cell.score >= cfg.minOccupiedScore && InBounds(sc.value.cell.centre, box)
      ensures forall i, j :: 0 <= i < j < |result| ==> result[i].key != result[j].key
    {
      hide BucketsOk, Positive, BucketOf, CellCentre, CellKey;
      forall sc
        ensures sc in result <==> sc in cells && sc.value.cell.score >= cfg.minOccupiedScore && InBounds(sc.value.cell.centre, box)
      {
        if sc in cells && sc.value.cell.score >= cfg.minOccupiedScore && InBounds(sc.value.cell.centre, box) {
          LiveAt(sc.key);
          BoxBracketsBuckets(cfg, box, sc.key);
          assert sc.key in Visited(index.Keys, lo, hi, at) && Matches(box, sc.key);
        }
      }
    }

    /** Centres and time stamps of the occupied cells in a box. */
    method QueryOccupiedTsInBox(box: Bounds) returns (result: seq<(Vec3, int)>)
      requires Valid()
      ensures forall p :: p in result <==> exists k :: Matches(box, k) && p == (Live()[k].cell.centre, Live()[k].cell.updatedNs)
    {
      hide BucketsOk, Positive, WellFormed;
      var found := OccupiedCellsInBox(box);
      result := [];
      for i := 0 to |found|
        invariant forall p :: p in result <==> exists j :: 0 <= j < i && p == (found[j].value.cell.centre, found[j].value.cell.updatedNs)
      {
        result := result + [(found[i].value.cell.centre, found[i].value.cell.updatedNs)];
      }
      forall p
        ensures p in result <==> exists k :: Matches(box, k) && p == (Live()[k].cell.centre, Live()[k].cell.updatedNs)
      {
        if p in result {
          var j :| 0 <= j < |found| && p == (found[j].value.cell.centre, found[j].value.cell.updatedNs);
          assert found[j] in found;
          LiveAt(found[j].key);
          assert Matches(box, found[j].key);
        }
        if k :| Matches(box, k) && p == (Live()[k].cell.centre, Live()[k].cell.updatedNs) {
          assert cells[index[k]] in found;
        }
      }
    }

    // -------------------------------------------------------------- ray cast

    ghost function OccupiedKeys(): set<Key>
      reads this
      requires InStep()
    {
      set k | k in Live() && Live()[k].cell.score >= cfg.minOccupiedScore
    }

    method IsOccupied(k: Key) returns (b: bool)
      requires InStep()
      ensures b <==> k in OccupiedKeys()
    {
      hide BucketsOk, Positive;
      b := k in index && cells[index[k]].value.cell.score >= cfg.minOccupiedScore;
    }

    /** What a cast promises, on points.  A miss: no point of the segment of the given length is
        strictly inside an occupied voxel.  A hit: an occupied voxel that holds a point of the
        segment, before which no point is strictly inside an occupied voxel. */
    ghost predicate CastResult(origin: Vec3, dir: Vec3, u: real, range: real, hit: Option<Vec3>, voxel: Key, at: real)
      reads this
      requires InStep() && u > 0.0
    {
      match hit
      case None => PathIsFree(origin, dir, u, range, OccupiedKeys(), cfg.cellSize, cfg.verticalCellSize)
      case Some(centre) =>
        && voxel in OccupiedKeys() && centre == CellCentre(cfg, voxel)
        && 0.0 <= at && (at == 0.0 || at <= range)
        && InClosedVoxel(Along(origin, dir, u, at), voxel, cfg.cellSize, cfg.verticalCellSize)
        && (at == 0.0 || PathIsFree(origin, dir, u, at, OccupiedKeys(), cfg.cellSize, cfg.verticalCellSize))
    }

    /** Casts a ray in direction dir, of any length u > 0; a zero direction hits nothing. */
    method RayCast(origin: Vec3, dir: Vec3, range: real, sqrt: real -> real)
      returns (hit: Option<Vec3>, ghost voxel: Key, ghost at: real)
      requires Valid() && IsSqrt(sqrt)
      ensures dir == Vec3(0.0, 0.0, 0.0) ==> hit.None?
      ensures forall u :: u > 0.0 && IsLength(u, dir) ==> CastResult(origin, dir, u, range, hit, voxel, at)
    {
      hide BucketsOk, Positive, WellFormed, IndexOk, Contents, ClearUntil, Touches, IsSqrt, IsLength, Length, CellCentre, RayOf;
      hit, voxel, at := March(origin, dir, range, sqrt);
      var len := Length(dir, sqrt);
      LengthIs(dir, sqrt);
      forall u | u > 0.0 && IsLength(u, dir)
        ensures CastResult(origin, dir, u, range, hit, voxel, at)
      {
        SameLength(dir, u, len);
        RayFollows(origin, dir, u);
        CastOnPoints(origin, dir, u, range, hit, voxel, at);
      }
    }

    lemma CastOnPoints(origin: Vec3, dir: Vec3, u: real, range: real, hit: Option<Vec3>, voxel: Key, at: real)
      requires InStep() && u > 0.0
      requires var r := RayOf(origin, dir, u);
               && Follows(r, origin, dir, u, cfg.cellSize, cfg.verticalCellSize)
               && (hit.None? ==> ClearUntil(r, OccupiedKeys(), range))
               && (hit.Some? ==>
                     && voxel in OccupiedKeys() && hit.value == CellCentre(cfg, voxel)
                     && (at == 0.0 || 0.0 <= at <= range) && Touches(r, at, voxel)
                     && (at == 0.0 || ClearUntil(r, OccupiedKeys(), at)))
      ensures CastResult(origin, dir, u, range, hit, voxel, at)
    {
      hide InStep, ClearUntil, Touches, CellCentre, RayOf, Follows, PathIsFree, Along, InClosedVoxel, OccupiedKeys;
      var r, sx, sz := RayOf(origin, dir, u), cfg.cellSize, cfg.verticalCellSize;
      if hit.None? {
        ClearMeansFree(r, origin, dir, u, range, OccupiedKeys(), sx, sz);
      } else {
        InsideIs(r, origin, dir, u, sx, sz, at, voxel);
        if at != 0.0 {
          ClearMeansFree(r, origin, dir, u, at, OccupiedKeys(), sx, sz);
        }
      }
    }

    lemma RayFollows(origin: Vec3, dir: Vec3, u: real)
      requires u > 0.0
      ensures Follows(RayOf(origin, dir, u), origin, dir, u, cfg.cellSize, cfg.verticalCellSize)
    {}

    static lemma LengthIs(dir: Vec3, sqrt: real -> real)
      requires IsSqrt(sqrt)
      ensures IsLength(Length(dir, sqrt), dir)
      ensures dir == Vec3(0.0, 0.0, 0.0) ==> Length(dir, sqrt) == 0.0
    {
      var len := Length(dir, sqrt);
      TimesSign(dir.x, dir.x);
      TimesSign(dir.y, dir.y);
      TimesSign(dir.z, dir.z);
      SquareSign(dir.x);
      SquareSign(dir.y);
      SquareSign(dir.z);
      assert Times(len, len) == Times(dir.x, dir.x) + Times(dir.y, dir.y) + Times(dir.z, dir.z);
      TimesSign(len, len);
    }

    static lemma SquareSign(a: real)
      ensures Times(a, a) >= 0.0
    {
      TimesSign(a, a);
    }

    static lemma SameLength(dir: Vec3, u: real, v: real)
      requires IsLength(u, dir) && IsLength(v, dir)
      ensures u == v
    {
      LengthUnique(u, v);
    }

    static function Length(d: Vec3, sqrt: real -> real): real {
      sqrt(Times(d.x, d.x) + Times(d.y, d.y) + Times(d.z, d.z))
    }

    /** The ray with a unit direction, in metres along it. */
    function RayOf(origin: Vec3, dir: Vec3, len: real): Ray
      requires len != 0.0
    {
      Ray(Axis(origin.x, dir.x / len, cfg.cellSize), Axis(origin.y, dir.y / len, cfg.cellSize),
          Axis(origin.z, dir.z / len, cfg.verticalCellSize))
    }

    lemma RayMoves(origin: Vec3, dir: Vec3, sqrt: real -> real)
      requires InStep() && IsSqrt(sqrt) && Length(dir, sqrt) > 0.0
      ensures Moving(RayOf(origin, dir, Length(dir, sqrt)))
    {
      hide BucketsOk, IndexOk, Positive;
      var len := Length(dir, sqrt);
      var sum := Times(dir.x, dir.x) + Times(dir.y, dir.y) + Times(dir.z, dir.z);
      TimesSign(len, len);
      TimesSign(dir.x, dir.x);
      TimesSign(dir.y, dir.y);
      TimesSign(dir.z, dir.z);
      assert sum >= 0.0 && Times(len, len) == sum;
      QuotientZero(dir.x, len);
      QuotientZero(dir.y, len);
      QuotientZero(dir.z, len);
    }

    static lemma QuotientZero(a: real, b: real)
      requires b > 0.0
      ensures a / b == 0.0 ==> a == 0.0
    {
      assert Times(a / b, b) == a;
      TimesSign(a / b, b);
    }

    /** Marches voxel by voxel to the first occupied cell.  A miss means that no voxel whose
        interior the ray enters within range is occupied; a hit is an occupied voxel that the
        ray touches, with no occupied interior entered at or before that time.  The march
        ends because each turn uses up one of the crossings left within range. */
    method March(origin: Vec3, dir: Vec3, range: real, sqrt: real -> real)
      returns (hit: Option<Vec3>, ghost voxel: Key, ghost at: real)
      requires Valid() && IsSqrt(sqrt)
      ensures Length(dir, sqrt) <= 0.0 ==> hit.None?
      ensures Length(dir, sqrt) > 0.0 && hit.None? ==>
                ClearUntil(RayOf(origin, dir, Length(dir, sqrt)), OccupiedKeys(), range)
      ensures hit.Some? ==>
                && Length(dir, sqrt) > 0.0
                && voxel in OccupiedKeys() && hit.value == CellCentre(cfg, voxel)
                && (at == 0.0 || 0.0 <= at <= range)
                && Touches(RayOf(origin, dir, Length(dir, sqrt)), at, voxel)
                && (at == 0.0 || ClearUntil(RayOf(origin, dir, Length(dir, sqrt)), OccupiedKeys(), at))
    {
      hide BucketsOk, Positive, WellFormed, IndexOk, Contents, Tracking, Touches, ClearUntil, Moving, Advance, Crossing, Left, IsSqrt,
           Length, CellCentre, CellKey;
      voxel, at := Key(0, 0, 0), 0.0;
      var len := Length(dir, sqrt);
      if !(len > 0.0) {
        return None, voxel, at;
      }
      var ray := RayOf(origin, dir, len);
      RayMoves(origin, dir, sqrt);
      BeginTracks(ray);
      var walk := Begin(ray);
      ghost var occupied := OccupiedKeys();
      var blocked := IsOccupied(walk.cur);
      if blocked {
        return Some(CellCentre(cfg, walk.cur)), walk.cur, 0.0;
      }
      while true
        invariant Tracking(ray, walk)
        invariant walk.cur !in occupied
        invariant walk.from == 0.0 || ClearUntil(ray, occupied, walk.from)
        invariant walk.from >= 0.0
        decreases Left(ray, walk, range)
      {
        AdvanceTracks(ray, walk, range);
        CrossingIsFirst(ray, walk);
        ClearExtends(ray, occupied, walk);
        var t := Crossing(walk).t;
        if t > range {
          ClearShrinks(ray, occupied, t, range);
          return None, voxel, at;
        }
        AdvanceEnters(ray, walk);
        walk := Advance(ray, walk);
        blocked := IsOccupied(walk.cur);
        if blocked {
          return Some(CellCentre(cfg, walk.cur)), walk.cur, walk.from;
        }
      }
    }

    static lemma ClearShrinks(r: Ray, occupied: set<Key>, t: real, range: real)
      requires ClearUntil(r, occupied, t) && range <= t
      ensures ClearUntil(r, occupied, range)
    {}

    static lemma AdvanceEnters(r: Ray, w: Walk)
      requires Crossing(w).At?
      ensures Advance(r, w).from == Crossing(w).t
    {}

    // -------------------------------------------------------------- sliding window

    static function DistSq(a: Vec3, b: Vec3): real {
      Times(a.x - b.x, a.x - b.x) + Times(a.y - b.y, a.y - b.y) + Times(a.z - b.z, a.z - b.z)
    }

    /** Squared Euclidean distance: the squares along the three axes, added up. */
    static lemma DistSqIsEuclidean(a: Vec3, b: Vec3)
      ensures var p, q := Vec3(b.x, a.y, a.z), Vec3(b.x, b.y, a.z);
              && DistSq(a, b) == DistSq(a, p) + DistSq(p, q) + DistSq(q, b)
              && DistSq(a, p) == Square(b.x - a.x) && DistSq(p, q) == Square(b.y - a.y) && DistSq(q, b) == Square(b.z - a.z)
    {
      OppositeSquares(a.x, b.x);
      OppositeSquares(a.y, b.y);
      OppositeSquares(a.z, b.z);
    }

    static lemma OppositeSquares(a: real, b: real)
      ensures Times(a - b, a - b) == Times(b - a, b - a) && Times(a - a, a - a) == 0.0
    {}

    /** Drops the cells beyond a radius from memory; the flush sets are not touched. */
    method EvictFarCells(centre: Vec3, radius: real)
      requires Valid()
      modifies `cells, `index, `buckets
      ensures Valid()
      ensures Live() == map k | k in old(Live()) && DistSq(old(Live())[k].cell.centre, centre) <= Times(radius, radius)
                          :: old(Live())[k]
    {
      hide BucketsOk, Positive, Times, DistSq;
      var r2 := Times(radius, radius);
      var toRemove: seq<Key> := [];
      ghost var live := Live();
      for i := 0 to |cells|
        invariant forall k :: k in toRemove <==> exists j :: 0 <= j < i && cells[j].key == k && DistSq(cells[j].value.cell.centre, centre) > r2
      {
        if DistSq(cells[i].value.cell.centre, centre) > r2 {
          toRemove := toRemove + [cells[i].key];
        }
      }
      assert forall k :: k in live ==> (k in toRemove <==> DistSq(live[k].cell.centre, centre) > r2);
      RemoveAll(toRemove);
    }

    method RemoveAll(ks: seq<Key>)
      requires InStep()
      modifies `cells, `index, `buckets
      ensures InStep() && Live() == old(Live()) - Keys(ks)
    {
      hide BucketsOk, IndexOk, Positive, Contents;
      ghost var live := Live();
      for i := 0 to |ks|
        invariant InStep() && Live() == live - Keys(ks[..i])
      {
        assert Keys(ks[..i + 1]) == Keys(ks[..i]) + {ks[i]};
        RemoveCellByKey(ks[i]);
      }
      assert ks[..|ks|] == ks;
    }

    /** Loads the selected rows that are not in memory; returns the centres of those loaded. */
    method LoadWindowFromDb(db: map<Key, Row>, centre: Vec3) returns (loaded: seq<Vec3>)
      requires Valid()
      modifies `cells, `index, `buckets
      ensures Valid() && Live() == WithRows(cfg, old(Live()), dirty, db, Selected(cfg, db, centre))
      ensures forall p :: p in loaded <==>
                exists k :: k in Selected(cfg, db, centre) && k !in old(Live()) && p == LoadedCell(cfg, dirty, db, k).centre
    {
      hide BucketsOk, IndexOk, Contents, Positive, InWindow, WellFormed;
      ghost var live := Live();
      var rows := Selected(cfg, db, centre);
      ghost var done: set<Key> := {};
      var rest := rows;
      loaded := [];
      WithNoRows(cfg, live, dirty, db);
      while rest != {}
        invariant rest <= rows && done == rows - rest
        invariant InStep() && Live() == WithRows(cfg, live, dirty, db, done)
        invariant forall p :: p in loaded <==> exists k :: k in done && k !in live && p == LoadedCell(cfg, dirty, db, k).centre
      {
        var k :| k in rest;
        rest := rest - {k};
        WithOneMoreRow(cfg, live, dirty, db, done, k);
        done := done + {k};
        InMemory(k);
        if k !in index {
          var cell := LoadedCell(cfg, dirty, db, k);
          Append(k, cell, 0);
          loaded := loaded + [cell.centre];
        }
      }
      assert done == rows;
      WithRowsIsWellFormed(cfg, State(live, dirty, evicted, mapSeq), db, centre);
    }

    lemma InMemory(k: Key)
      requires InStep()
      ensures k in index <==> k in Live()
    {}

    /** Slides the window when the vehicle has moved a quarter of the horizon: drops cells
        beyond twice the horizon, then loads the rows around the vehicle. */
    method SlideWindow(db: Option<map<Key, Row>>, drone: Vec3) returns (slid: bool, loaded: seq<Vec3>)
      requires Valid()
      modifies `cells, `index, `buckets, `lastSlide, `slideInitialized
      ensures Valid()
      ensures slid <==> db.Some? && !(old(slideInitialized) && cfg.horizon > 0.0
                        && DistSq(drone, old(lastSlide)) < Times(cfg.horizon / 4.0, cfg.horizon / 4.0))
      ensures !slid ==> Live() == old(Live()) && loaded == [] && lastSlide == old(lastSlide)
                        && slideInitialized == old(slideInitialized)
      ensures slid ==> slideInitialized && lastSlide == drone
      ensures slid ==>
                var near := map k | k in old(Live()) && DistSq(old(Live())[k].cell.centre, drone)
                                                         <= Times(2.0 * cfg.horizon, 2.0 * cfg.horizon) :: old(Live())[k];
                Live() == WithRows(cfg, near, dirty, db.value, Selected(cfg, db.value, drone))
    {
      hide BucketsOk, IndexOk, Contents, Positive, InWindow, WellFormed, DistSq, Times;
      slid, loaded := false, [];
      if db.None? {
        return;
      }
      var threshold := cfg.horizon / 4.0;
      if slideInitialized {
        if threshold > 0.0 && DistSq(drone, lastSlide) < Times(threshold, threshold) {
          return;
        }
      }
      lastSlide, slideInitialized := drone, true;
      EvictFarCells(drone, 2.0 * cfg.horizon);
      slid := true;
      loaded := LoadWindowFromDb(db.value, drone);
    }
  }

  lemma WithNoRows(cfg: Config, live: map<Key, Entry>, dirty: map<Key, Cell>, db: map<Key, Row>)
    ensures WithRows(cfg, live, dirty, db, {}) == live
  {}

  lemma WithOneMoreRow(cfg: Config, live: map<Key, Entry>, dirty: map<Key, Cell>, db: map<Key, Row>, done: set<Key>, k: Key)
    requires done <= db.Keys && k in db && k !in done
    ensures k in WithRows(cfg, live, dirty, db, done) <==> k in live
    ensures WithRows(cfg, live, dirty, db, done + {k}) ==
            if k in live then WithRows(cfg, live, dirty, db, done)
            else WithRows(cfg, live, dirty, db, done)[k := Entry(LoadedCell(cfg, dirty, db, k), 0)]
  {}

  lemma WithRowsIsWellFormed(cfg: Config, s: State, db: map<Key, Row>, centre: Vec3)
    requires Sane(cfg) && WellFormed(cfg, s)
    ensures WellFormed(cfg, s.(live := WithRows(cfg, s.live, s.dirty, db, Selected(cfg, db, centre))))
  {
    hide InWindow, CellCentre;
  }

  function WrittenAfter(cells: seq<StoredCell>, since: nat): seq<Cell> {
    if cells == [] then []
    else
      var last := cells[|cells| - 1];
      WrittenAfter(cells[..|cells| - 1], since) + (if last.value.writeSeq > since then [last.value.cell] else [])
  }

  lemma {:induction false} WrittenAfterMembers(cells: seq<StoredCell>, since: nat, c: Cell)
    ensures c in WrittenAfter(cells, since) <==> exists j :: 0 <= j < |cells| && cells[j].value.writeSeq > since && cells[j].value.cell == c
  {
    if cells != [] {
      WrittenAfterMembers(cells[..|cells| - 1], since, c);
    }
  }

  lemma WrittenAfterIsDelta(cells: seq<StoredCell>, index: map<Key, nat>, since: nat)
    requires IndexOk(cells, index)
    ensures IsDelta(Contents(cells, index), since, WrittenAfter(cells, since))
  {
    hide WrittenAfter;
    var live := Contents(cells, index);
    forall k | k in live && live[k].writeSeq > since
      ensures live[k].cell in WrittenAfter(cells, since)
    {
      WrittenAfterMembers(cells, since, live[k].cell);
    }
    forall c | c in WrittenAfter(cells, since)
      ensures exists k :: k in live && live[k].writeSeq > since && live[k].cell == c
    {
      WrittenAfterMembers(cells, since, c);
      var j :| 0 <= j < |cells| && cells[j].value.writeSeq > since && cells[j].value.cell == c;
      assert cells[j].key in live;
    }
  }

  /** Each late key is in the snapshot once. */
  lemma {:induction false} WrittenAfterCount(cells: seq<StoredCell>, index: map<Key, nat>, since: nat)
    requires IndexOk(cells, index)
    ensures |WrittenAfter(cells, since)| == |LateKeys(Contents(cells, index), since)|
    decreases |cells|
  {
    hide IndexOk, Contents, LateKeys;
    if cells == [] {
      NothingLate(cells, index, since);
    } else {
      var n := |cells| - 1;
      DropLast(cells, index);
      WrittenAfterCount(cells[..n], index - {cells[n].key}, since);
      LateKeysWithout(Contents(cells, index), cells[n].key, since);
    }
  }

  lemma NothingLate(cells: seq<StoredCell>, index: map<Key, nat>, since: nat)
    requires IndexOk(cells, index) && cells == []
    ensures LateKeys(Contents(cells, index), since) == {}
  {}

  lemma LateKeysWithout(live: map<Key, Entry>, k: Key, since: nat)
    requires k in live
    ensures |LateKeys(live, since)| == |LateKeys(live - {k}, since)| + (if live[k].writeSeq > since then 1 else 0)
  {
    assert LateKeys(live - {k}, since) == LateKeys(live, since) - {k};
  }
}
