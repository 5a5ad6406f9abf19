/** The planning map's containers: what its vector of cells holds, and the coarse buckets of keys
    that the box query walks.  Invariants and single-step lemmas, on values. */
module CellStore {
  import opened Grid
  import opened PlanningSpec
  import opened KeyedVector

  /** A vector entry: the key, and the cell with the sequence number of its last write. */
  type StoredCell = Keyed<Entry>

  // ---------------------------------------------------------------- buckets

  const SPAN_XY := 10
  const SPAN_Z := 5

  /** Integer division and remainder as the source language defines them, truncating to zero. */
  function TruncDiv(a: int, b: int): int
    requires b > 0
  {
    if a >= 0 then a / b else -((-a) / b)
  }

  function TruncRem(a: int, b: int): int
    requires b > 0
  {
    a - b * TruncDiv(a, b)
  }

  /** Floor division built from the truncating one. */
  function FloorDivPos(a: int, b: int): (q: int)
    requires b > 0
    ensures q * b <= a < q * b + b
  {
    var q := TruncDiv(a, b);
    var r := TruncRem(a, b);
    if r != 0 && r < 0 then q - 1 else q
  }

  lemma FloorDivPosMono(a: int, a': int, b: int)
    requires b > 0 && a <= a'
    ensures FloorDivPos(a, b) <= FloorDivPos(a', b)
  {
    hide FloorDivPos;
    var q, q' := FloorDivPos(a, b), FloorDivPos(a', b);
    ProductSign(q - q' - 1, b);
    assert (q - q' - 1) * b == q * b - q' * b - b;
  }

  lemma ProductSign(d: int, b: int)
    requires b > 0
    ensures d >= 0 ==> d * b >= 0
  {}

  function BucketOf(k: Key): Key {
    Key(FloorDivPos(k.x, SPAN_XY), FloorDivPos(k.y, SPAN_XY), FloorDivPos(k.z, SPAN_Z))
  }

  /** Every key is in the bucket of its coordinates and nowhere else, and no bucket is empty. */
  ghost predicate BucketsOk(keys: set<Key>, buckets: map<Key, set<Key>>) {
    && (forall k :: k in keys ==> BucketOf(k) in buckets && k in buckets[BucketOf(k)])
    && (forall b :: b in buckets ==> buckets[b] != {} && forall k :: k in buckets[b] ==> k in keys && BucketOf(k) == b)
  }

  function BucketInsert(buckets: map<Key, set<Key>>, k: Key): map<Key, set<Key>> {
    var b := BucketOf(k);
    buckets[b := (if b in buckets then buckets[b] else {}) + {k}]
  }

  function BucketRemove(buckets: map<Key, set<Key>>, k: Key): map<Key, set<Key>> {
    var b := BucketOf(k);
    if b !in buckets then buckets
    else if buckets[b] - {k} == {} then buckets - {b}
    else buckets[b := buckets[b] - {k}]
  }

  lemma BucketInsertKeeps(keys: set<Key>, buckets: map<Key, set<Key>>, k: Key)
    requires BucketsOk(keys, buckets)
    ensures BucketsOk(keys + {k}, BucketInsert(buckets, k))
  {
    hide BucketOf;
  }

  lemma BucketRemoveKeeps(keys: set<Key>, buckets: map<Key, set<Key>>, k: Key)
    requires BucketsOk(keys, buckets)
    ensures BucketsOk(keys - {k}, BucketRemove(buckets, k))
  {
    hide BucketOf;
    var b := BucketOf(k);
    if b in buckets {
      forall j | j in keys - {k}
        ensures BucketOf(j) in BucketRemove(buckets, k) && j in BucketRemove(buckets, k)[BucketOf(j)]
      {
        if BucketOf(j) == b {
          assert j in buckets[b] - {k};
        }
      }
    }
  }

  /** Buckets of the box corners bracket the bucket of every key whose centre is in the box. */
  lemma BoxBracketsBuckets(cfg: Config, box: Bounds, k: Key)
    requires Sane(cfg) && InBounds(CellCentre(cfg, k), box)
    ensures var lo, hi, b := BucketOf(CellKey(cfg, box.min)), BucketOf(CellKey(cfg, box.max)), BucketOf(k);
            lo.x <= b.x <= hi.x && lo.y <= b.y <= hi.y && lo.z <= b.z <= hi.z
  {
    var c := CellCentre(cfg, k);
    KeyOfCentre(k, cfg.cellSize, cfg.verticalCellSize);
    AxisBrackets(box.min.x, c.x, box.max.x, cfg.cellSize, SPAN_XY);
    AxisBrackets(box.min.y, c.y, box.max.y, cfg.cellSize, SPAN_XY);
    AxisBrackets(box.min.z, c.z, box.max.z, cfg.verticalCellSize, SPAN_Z);
  }

  lemma AxisBrackets(lo: real, x: real, hi: real, s: real, span: int)
    requires s > 0.0 && span > 0 && lo <= x <= hi
    ensures FloorDivPos(FloorDiv(lo, s), span) <= FloorDivPos(FloorDiv(x, s), span)
                                               <= FloorDivPos(FloorDiv(hi, s), span)
  {
    hide FloorDiv, FloorDivPos;
    FloorDivMono(lo, x, s);
    FloorDivMono(x, hi, s);
    FloorDivPosMono(FloorDiv(lo, s), FloorDiv(x, s), span);
    FloorDivPosMono(FloorDiv(x, s), FloorDiv(hi, s), span);
  }

  predicate Between(lo: Key, b: Key, hi: Key) {
    lo.x <= b.x <= hi.x && lo.y <= b.y <= hi.y && lo.z <= b.z <= hi.z
  }

  /** Keys whose bucket the nested loops over lo..hi have visited before reaching bucket `at`. */
  ghost function Visited(keys: set<Key>, lo: Key, hi: Key, at: Key): set<Key> {
    set k | k in keys && Between(lo, BucketOf(k), hi) && LoopBefore(BucketOf(k), at)
  }

  /** Keys of one bucket. */
  function BucketKeys(buckets: map<Key, set<Key>>, b: Key): set<Key> {
    if b in buckets then buckets[b] else {}
  }

  lemma VisitBucket(keys: set<Key>, buckets: map<Key, set<Key>>, lo: Key, hi: Key, at: Key)
    requires BucketsOk(keys, buckets) && Between(lo, at, hi)
    ensures BucketKeys(buckets, at) <= keys && BucketKeys(buckets, at) !! Visited(keys, lo, hi, at)
    ensures Visited(keys, lo, hi, at.(z := at.z + 1)) == Visited(keys, lo, hi, at) + BucketKeys(buckets, at)
  {
    hide BucketOf;
  }

  lemma VisitWraps(keys: set<Key>, lo: Key, hi: Key, at: Key)
    ensures at.z > hi.z ==> Visited(keys, lo, hi, at) == Visited(keys, lo, hi, Key(at.x, at.y + 1, lo.z))
    ensures at.y > hi.y ==> Visited(keys, lo, hi, at) == Visited(keys, lo, hi, Key(at.x + 1, lo.y, lo.z))
    ensures at == lo ==> Visited(keys, lo, hi, at) == {}
  {
    hide BucketOf;
  }
}
