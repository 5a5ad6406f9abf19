/** What the local distance map (level 3) should answer, stated as a scan over occupied voxels,
    and what recomputing only a window of it does to those answers. */
module EsdfSpec {
  import opened Grid
  import opened DistanceTransform
  import opened DistanceField

  /** Distance stored for an occupied voxel. */
  const INTERIOR: real := -0.5

  datatype EsdfConfig = EsdfConfig(cellSize: real, verticalCellSize: real, d0: real, sampleSpacing: real)

  datatype EsdfCell = EsdfCell(centre: Vec3, d: real)

  /** The recomputed block of voxels. */
  datatype Block = Block(origin: Key, dims: Dims)

  function Local(b: Block, k: Key): Key {
    Key(k.x - b.origin.x, k.y - b.origin.y, k.z - b.origin.z)
  }

  function Global(b: Block, v: Key): Key {
    Key(v.x + b.origin.x, v.y + b.origin.y, v.z + b.origin.z)
  }

  predicate InBlock(b: Block, k: Key) {
    In(b.dims, Local(b, k))
  }

  ghost function Visible(occupied: set<Key>, b: Block): set<Key> {
    set k | k in occupied && InBlock(b, k)
  }

  /** Voxel w is nearer to k than the truncation radius. */
  ghost predicate Within(sp: Spacing, d0: real, k: Key, w: Key) {
    d0 > 0.0 && SqDist(sp, k, w) < Times(d0, d0)
  }

  /** a is the answer for voxel k that a scan of all the given occupied voxels produces: the
      interior value if k is occupied, else the distance to the nearest one if that is below
      d0, else d0. */
  ghost predicate ScanAnswer(occupied: set<Key>, sp: Spacing, d0: real, k: Key, a: real) {
    if k in occupied then a == INTERIOR
    else if exists w :: w in occupied && Within(sp, d0, k, w) then
      && a >= 0.0
      && (exists w :: w in occupied && Within(sp, d0, k, w) && Times(a, a) == SqDist(sp, k, w))
      && (forall w :: w in occupied ==> Times(a, a) <= SqDist(sp, k, w))
    else a == d0
  }

  /** The scan has one answer. */
  lemma ScanAnswerUnique(occupied: set<Key>, sp: Spacing, d0: real, k: Key, a: real, b: real)
    requires ScanAnswer(occupied, sp, d0, k, a) && ScanAnswer(occupied, sp, d0, k, b)
    ensures a == b
  {
    hide SqDist, Times;
    if k !in occupied && exists w :: w in occupied && Within(sp, d0, k, w) {
      RootsOrdered(a, b);
    }
  }

  /** Clearance queries read off the scan: a sphere of radius r <= d0 is reported clear exactly
      when no occupied voxel centre is nearer than r. */
  lemma ClearMeansNothingNearer(occupied: set<Key>, sp: Spacing, d0: real, k: Key, a: real, r: real)
    requires ScanAnswer(occupied, sp, d0, k, a) && 0.0 < r <= d0
    ensures a >= r <==> forall w :: w in occupied ==> SqDist(sp, k, w) >= Times(r, r)
  {
    hide SqDist, Times;
    TimesSign(r, r);
    RootsOrdered(r, d0);
    if k in occupied {
      SqDistSelf(sp, k);
    } else if exists w :: w in occupied && Within(sp, d0, k, w) {
      RootsOrdered(a, r);
    }
  }

  /** An occupied voxel answers half a metre of penetration. */
  lemma InteriorAnswer(occupied: set<Key>, sp: Spacing, d0: real, k: Key, a: real)
    requires ScanAnswer(occupied, sp, d0, k, a) && k in occupied
    ensures a == -0.5
  {}

  lemma SqDistSelf(sp: Spacing, k: Key)
    ensures SqDist(sp, k, k) == 0.0
  {}

  // ---------------------------------------------------------------- stored shell

  /** What a map answers for voxel k. */
  function Answer(cells: map<Key, EsdfCell>, d0: real, k: Key): real {
    if k in cells then cells[k].d else d0
  }

  lemma SqrtBelow(sqrt: real -> real, x: real, d0: real)
    requires IsSqrt(sqrt) && x >= 0.0
    ensures sqrt(x) < d0 <==> d0 > 0.0 && x < Times(d0, d0)
    ensures sqrt(x) >= 0.0 && Times(sqrt(x), sqrt(x)) == x
  {
    hide Times;
    if d0 > 0.0 {
      RootsOrdered(sqrt(x), d0);
    }
  }

  /** r is the squared field value of voxel k with respect to a set of occupied voxels. */
  ghost predicate SquaredTo(occupied: set<Key>, sp: Spacing, k: Key, r: real) {
    if occupied == {} then r == INF_SQ
    else
      && (exists w :: w in occupied && r == SqDist(sp, k, w))
      && (forall w :: w in occupied ==> r <= SqDist(sp, k, w))
  }

  /** Storing sqrt of the squared field where it is below d0, the interior value for occupied
      voxels, and nothing elsewhere makes the map answer as the scan does. */
  lemma ShellAnswersScan(occupied: set<Key>, sp: Spacing, d0: real, sqrt: real -> real, k: Key, r: real)
    requires IsSqrt(sqrt) && r >= 0.0 && Times(d0, d0) <= INF_SQ && SquaredTo(occupied, sp, k, r)
    ensures ScanAnswer(occupied, sp, d0, k,
                       if k in occupied then INTERIOR else if sqrt(r) < d0 then sqrt(r) else d0)
  {
    hide SqDist, Times, IsSqrt;
    SqrtBelow(sqrt, r, d0);
  }

  // ---------------------------------------------------------------- window against whole

  /** Everything within d0 of k lies in the block. */
  ghost predicate BallInBlock(b: Block, sp: Spacing, d0: real, k: Key) {
    forall w :: Within(sp, d0, k, w) ==> InBlock(b, w)
  }

  /** A voxel whose d0-ball lies in the block is answered from the block as from the whole. */
  lemma BallIsEnough(occupied: set<Key>, b: Block, sp: Spacing, d0: real, k: Key, a: real)
    requires InBlock(b, k) && BallInBlock(b, sp, d0, k) && ScanAnswer(Visible(occupied, b), sp, d0, k, a)
    ensures ScanAnswer(occupied, sp, d0, k, a)
  {
    hide SqDist, Times, InBlock;
    var seen := Visible(occupied, b);
    if k !in occupied {
      if w0 :| w0 in occupied && Within(sp, d0, k, w0) {
        assert w0 in seen;
        forall w | w in occupied
          ensures Times(a, a) <= SqDist(sp, k, w)
        {
          if Within(sp, d0, k, w) {
            assert w in seen;
          }
        }
      }
    }
  }

  /** Some occupied voxel outside the block is nearer than d0 and than every occupied voxel
      inside it. */
  ghost predicate Shadowed(occupied: set<Key>, b: Block, sp: Spacing, d0: real, k: Key) {
    exists w :: && w in occupied && !InBlock(b, w) && Within(sp, d0, k, w)
                && forall u :: u in occupied && InBlock(b, u) ==> SqDist(sp, k, w) < SqDist(sp, k, u)
  }

  /** Exactly when a recomputed voxel is answered as the whole map demands: when it is occupied
      or no nearer obstacle was left outside the block. */
  lemma BlockAnswerIsExactIff(occupied: set<Key>, b: Block, sp: Spacing, d0: real, k: Key, a: real)
    requires InBlock(b, k) && ScanAnswer(Visible(occupied, b), sp, d0, k, a)
    ensures ScanAnswer(occupied, sp, d0, k, a) <==> k in occupied || !Shadowed(occupied, b, sp, d0, k)
  {
    hide SqDist, Times, InBlock;
    var seen := Visible(occupied, b);
    if k !in occupied {
      if Shadowed(occupied, b, sp, d0, k) {
        ShadowedIsWrong(occupied, b, sp, d0, k, a);
      } else {
        UnshadowedIsExact(occupied, b, sp, d0, k, a);
      }
    }
  }

  lemma ShadowedIsWrong(occupied: set<Key>, b: Block, sp: Spacing, d0: real, k: Key, a: real)
    requires k !in occupied && ScanAnswer(Visible(occupied, b), sp, d0, k, a) && Shadowed(occupied, b, sp, d0, k)
    ensures !ScanAnswer(occupied, sp, d0, k, a)
  {
    hide SqDist, Times, InBlock;
    var w :| && w in occupied && !InBlock(b, w) && Within(sp, d0, k, w)
             && forall u :: u in occupied && InBlock(b, u) ==> SqDist(sp, k, w) < SqDist(sp, k, u);
    if exists u :: u in Visible(occupied, b) && Within(sp, d0, k, u) {
      var u :| u in Visible(occupied, b) && Times(a, a) == SqDist(sp, k, u);
      assert SqDist(sp, k, w) < SqDist(sp, k, u);
    }
  }

  lemma UnshadowedIsExact(occupied: set<Key>, b: Block, sp: Spacing, d0: real, k: Key, a: real)
    requires k !in occupied && ScanAnswer(Visible(occupied, b), sp, d0, k, a) && !Shadowed(occupied, b, sp, d0, k)
    ensures ScanAnswer(occupied, sp, d0, k, a)
  {
    hide SqDist, Times, InBlock;
    var seen := Visible(occupied, b);
    if w0 :| w0 in occupied && Within(sp, d0, k, w0) {
      if w0 !in seen {
        var u :| u in occupied && InBlock(b, u) && SqDist(sp, k, u) <= SqDist(sp, k, w0);
        assert u in seen && Within(sp, d0, k, u);
      }
      assert exists u :: u in seen && Within(sp, d0, k, u);
      forall w | w in occupied
        ensures Times(a, a) <= SqDist(sp, k, w)
      {
        if w !in seen && Within(sp, d0, k, w) {
          var u :| u in occupied && InBlock(b, u) && SqDist(sp, k, u) <= SqDist(sp, k, w);
          assert u in seen;
        }
      }
    }
  }

  /** A recomputed free voxel never reports less than the true truncated distance. */
  lemma BlockNeverUnderReports(occupied: set<Key>, b: Block, sp: Spacing, d0: real, k: Key, a: real, truth: real)
    requires k !in occupied && ScanAnswer(Visible(occupied, b), sp, d0, k, a) && ScanAnswer(occupied, sp, d0, k, truth)
    ensures truth <= a
  {
    hide SqDist, Times, InBlock;
    if exists w :: w in occupied && Within(sp, d0, k, w) {
      var near :| near in occupied && Within(sp, d0, k, near) && Times(truth, truth) == SqDist(sp, k, near);
      RootsOrdered(truth, d0);
      if exists u :: u in Visible(occupied, b) && Within(sp, d0, k, u) {
        var u :| u in Visible(occupied, b) && Times(a, a) == SqDist(sp, k, u);
        assert u in occupied;
        RootsOrdered(a, truth);
      }
    }
  }

  /** A voxel that was erased and not recomputed answers d0; that is right exactly when it is
      free and nothing occupied is nearer than d0. */
  lemma ErasedAnswerIsExactIff(occupied: set<Key>, sp: Spacing, d0: real, k: Key)
    requires d0 >= 0.0
    ensures ScanAnswer(occupied, sp, d0, k, d0) <==> k !in occupied && forall w :: w in occupied ==> !Within(sp, d0, k, w)
  {
    hide SqDist, Times;
    if exists w :: w in occupied && Within(sp, d0, k, w) {
      var w :| w in occupied && Within(sp, d0, k, w);
    }
  }
}
