/** What one tick of evidence does to the planning map (level 2), on values: the live cells by
    key, the rows to flush and the keys to delete.  The class in PlanningMap keeps a dense
    vector, a key index and coarse buckets in step with this description. */
module PlanningSpec {
  import opened Grid

  datatype Config = Config(
    cellSize: real, verticalCellSize: real, minOccupiedScore: real,
    occupiedIncrement: real, freeDecrement: real, logOddsMax: real, evictionThreshold: real,
    horizon: real)

  predicate Sane(cfg: Config) {
    cfg.cellSize > 0.0 && cfg.verticalCellSize > 0.0 && cfg.minOccupiedScore > 0.0 && cfg.logOddsMax > 0.0
  }

  datatype Cell = Cell(centre: Vec3, logOdds: real, score: real, confidence: real, count: nat, updatedNs: int)

  /** A live cell together with the map sequence number of its last write. */
  datatype Entry = Entry(cell: Cell, writeSeq: nat)

  datatype L1State = Unknown | Occupied | ObservedFree | Stale | Mixed

  datatype L1Cell = L1Cell(state: L1State, centre: Vec3, score: real, confidence: real)

  function CellKey(cfg: Config, p: Vec3): Key
    requires Sane(cfg)
  {
    KeyOf(p, cfg.cellSize, cfg.verticalCellSize)
  }

  function CellCentre(cfg: Config, k: Key): Vec3 {
    CentreOf(k, cfg.cellSize, cfg.verticalCellSize)
  }

  ghost predicate Positive(sigmoid: real -> real) {
    forall x :: sigmoid(x) > 0.0
  }

  /** State while a tick walks its evidence: live cells, rows written so far in order, and
      keys whose log-odds fell below the eviction threshold. */
  datatype Tick = Tick(live: map<Key, Entry>, wrote: seq<(Key, Cell)>, cleared: seq<Key>)

  predicate Hit(cfg: Config, c: L1Cell) {
    (c.state.Occupied? || c.state.Mixed?) && c.score >= cfg.minOccupiedScore
  }

  function Reinforced(cfg: Config, sigmoid: real -> real, prior: Cell, c: L1Cell, now: int): Cell {
    var lo := Min(prior.logOdds + Times(c.confidence, cfg.occupiedIncrement), cfg.logOddsMax);
    Cell(prior.centre, lo, sigmoid(lo), Max(prior.confidence, c.confidence), prior.count + 1, now)
  }

  function Created(cfg: Config, sigmoid: real -> real, k: Key, c: L1Cell, now: int): Cell {
    var lo := Min(Times(c.confidence, cfg.occupiedIncrement), cfg.logOddsMax);
    Cell(CellCentre(cfg, k), lo, sigmoid(lo), c.confidence, 1, now)
  }

  function Weakened(cfg: Config, sigmoid: real -> real, prior: Cell, c: L1Cell): Cell {
    var lo := Max(prior.logOdds - Times(c.confidence, cfg.freeDecrement), -cfg.logOddsMax);
    prior.(logOdds := lo, score := if lo < cfg.evictionThreshold then 0.0 else sigmoid(lo))
  }

  /** One evidence cell. */
  function Observe(cfg: Config, sigmoid: real -> real, n: nat, now: int, t: Tick, c: L1Cell): Tick
    requires Sane(cfg)
  {
    var k := CellKey(cfg, c.centre);
    if Hit(cfg, c) then
      var cell := if k in t.live then Reinforced(cfg, sigmoid, t.live[k].cell, c, now)
                  else Created(cfg, sigmoid, k, c, now);
      t.(live := t.live[k := Entry(cell, n)], wrote := t.wrote + [(k, cell)])
    else if c.state.ObservedFree? && k in t.live then
      var cell := Weakened(cfg, sigmoid, t.live[k].cell, c);
      if cell.logOdds < cfg.evictionThreshold then
        t.(live := t.live[k := Entry(cell, t.live[k].writeSeq)], cleared := t.cleared + [k])
      else
        t.(live := t.live[k := Entry(cell, n)], wrote := t.wrote + [(k, cell)])
    else
      t
  }

  function ObserveAll(cfg: Config, sigmoid: real -> real, n: nat, now: int, t: Tick, cs: seq<L1Cell>): Tick
    requires Sane(cfg)
  {
    if cs == [] then t
    else Observe(cfg, sigmoid, n, now, ObserveAll(cfg, sigmoid, n, now, t, cs[..|cs| - 1]), cs[|cs| - 1])
  }

  /** Sweep of the cleared keys: a key leaves the map only if its score is still the zero
      sentinel, so a hit later in the same tick keeps it. */
  function Swept(live: map<Key, Entry>, cleared: seq<Key>): map<Key, Entry> {
    map k | k in live && !(k in cleared && live[k].cell.score <= 0.0) :: live[k]
  }

  function Overwritten(rows: map<Key, Cell>, wrote: seq<(Key, Cell)>): map<Key, Cell> {
    if wrote == [] then rows
    else Overwritten(rows, wrote[..|wrote| - 1])[wrote[|wrote| - 1].0 := wrote[|wrote| - 1].1]
  }

  function Keys(ks: seq<Key>): set<Key> {
    set k | k in ks
  }

  /** The part of the map that outlives a tick. */
  datatype State = State(live: map<Key, Entry>, dirty: map<Key, Cell>, evicted: set<Key>, mapSeq: nat)

  /** A whole tick. */
  function Updated(cfg: Config, sigmoid: real -> real, now: int, s: State, cs: seq<L1Cell>): State
    requires Sane(cfg)
  {
    var n := s.mapSeq + 1;
    var t := ObserveAll(cfg, sigmoid, n, now, Tick(s.live, [], []), cs);
    State(Swept(t.live, t.cleared),
          Overwritten(s.dirty, t.wrote) - Keys(t.cleared),
          s.evicted + Keys(t.cleared),
          n)
  }

  // ---------------------------------------------------------------- what every tick keeps

  /** Live cells sit at the centre of their key, have a positive score and were written no
      later than the current sequence number; rows waiting for a flush have the same shape. */
  ghost predicate WellFormed(cfg: Config, s: State) {
    && (forall k :: k in s.live ==>
          s.live[k].cell.centre == CellCentre(cfg, k) && s.live[k].cell.score > 0.0 && s.live[k].writeSeq <= s.mapSeq)
    && (forall k :: k in s.dirty ==> s.dirty[k].centre == CellCentre(cfg, k) && s.dirty[k].score > 0.0)
  }

  /** Inside tick n that started from `start`: every live cell was stamped with n, is exactly
      as it started, or carries the zero sentinel and is queued for the sweep. */
  ghost predicate TickInvariant(cfg: Config, n: nat, start: map<Key, Entry>, t: Tick) {
    && (forall k :: k in start ==> k in t.live)
    && (forall k :: k in t.live ==>
          && t.live[k].cell.centre == CellCentre(cfg, k)
          && t.live[k].writeSeq <= n
          && (|| (t.live[k].cell.score > 0.0 && t.live[k].writeSeq == n)
              || (k in start && t.live[k] == start[k] && t.live[k].cell.score > 0.0)
              || (t.live[k].cell.score == 0.0 && k in t.cleared)))
    && (forall i :: 0 <= i < |t.wrote| ==>
          t.wrote[i].0 in t.live && t.wrote[i].1.centre == CellCentre(cfg, t.wrote[i].0) && t.wrote[i].1.score > 0.0)
    && (forall k :: k in t.cleared ==> k in t.live)
  }

  lemma ObserveKeepsTickInvariant(cfg: Config, sigmoid: real -> real, n: nat, now: int,
                                  start: map<Key, Entry>, t: Tick, c: L1Cell)
    requires Sane(cfg) && Positive(sigmoid) && TickInvariant(cfg, n, start, t)
    ensures TickInvariant(cfg, n, start, Observe(cfg, sigmoid, n, now, t, c))
  {
    hide CellKey, CellCentre;
  }

  lemma {:induction false} ObserveAllKeepsTickInvariant(cfg: Config, sigmoid: real -> real, n: nat, now: int,
                                                        start: map<Key, Entry>, t: Tick, cs: seq<L1Cell>)
    requires Sane(cfg) && Positive(sigmoid) && TickInvariant(cfg, n, start, t)
    ensures TickInvariant(cfg, n, start, ObserveAll(cfg, sigmoid, n, now, t, cs))
  {
    hide TickInvariant, Observe;
    if cs != [] {
      ObserveAllKeepsTickInvariant(cfg, sigmoid, n, now, start, t, cs[..|cs| - 1]);
      ObserveKeepsTickInvariant(cfg, sigmoid, n, now, start,
                                ObserveAll(cfg, sigmoid, n, now, t, cs[..|cs| - 1]), cs[|cs| - 1]);
    }
  }

  lemma {:induction false} OverwrittenShape(cfg: Config, rows: map<Key, Cell>, wrote: seq<(Key, Cell)>)
    requires forall k :: k in rows ==> rows[k].centre == CellCentre(cfg, k) && rows[k].score > 0.0
    requires forall i :: 0 <= i < |wrote| ==> wrote[i].1.centre == CellCentre(cfg, wrote[i].0) && wrote[i].1.score > 0.0
    ensures forall k :: k in Overwritten(rows, wrote) ==>
              Overwritten(rows, wrote)[k].centre == CellCentre(cfg, k) && Overwritten(rows, wrote)[k].score > 0.0
  {
    if wrote != [] {
      OverwrittenShape(cfg, rows, wrote[..|wrote| - 1]);
    }
  }

  /** A tick keeps the map well formed -- in particular no cell with the zero sentinel is left,
      whatever duplicates and same-tick resurrections the evidence holds -- and a surviving
      cell that was not stamped by this tick is exactly the cell it was before. */
  lemma UpdatedIsWellFormed(cfg: Config, sigmoid: real -> real, now: int, s: State, cs: seq<L1Cell>)
    requires Sane(cfg) && Positive(sigmoid) && WellFormed(cfg, s)
    ensures WellFormed(cfg, Updated(cfg, sigmoid, now, s, cs))
    ensures var s' := Updated(cfg, sigmoid, now, s, cs);
            forall k :: k in s'.live && s'.live[k].writeSeq != s'.mapSeq ==> k in s.live && s.live[k] == s'.live[k]
  {
    hide Observe, ObserveAll, CellCentre;
    var n := s.mapSeq + 1;
    var t0 := Tick(s.live, [], []);
    var t := ObserveAll(cfg, sigmoid, n, now, t0, cs);
    ObserveAllKeepsTickInvariant(cfg, sigmoid, n, now, s.live, t0, cs);
    OverwrittenShape(cfg, s.dirty, t.wrote);
  }

  // ---------------------------------------------------------------- sliding window

  /** A row of the `cells` table. */
  datatype Row = Row(score: real, confidence: real, logOdds: real, count: nat)

  function ToRow(c: Cell): Row {
    Row(c.score, c.confidence, c.logOdds, c.count)
  }

  /** What a window load makes of a row; it does not read the log-odds column. */
  function FromRow(cfg: Config, k: Key, r: Row): Cell {
    Cell(CellCentre(cfg, k), 0.0, r.score, r.confidence, r.count, 0)
  }

  /** A loaded row keeps its columns, sits at the centre of its key and starts from even log-odds,
      whatever the table holds in that column. */
  lemma RowStartsEven(cfg: Config, k: Key, r: Row)
    ensures var c := FromRow(cfg, k, r);
            && c.score == r.score && c.confidence == r.confidence && c.count == r.count && c.logOdds == 0.0
            && c.centre == CellCentre(cfg, k)
  {}

  predicate InWindow(cfg: Config, centre: Vec3, k: Key)
    requires Sane(cfg)
  {
    && FloorDiv(centre.x - cfg.horizon, cfg.cellSize) <= k.x <= FloorDiv(centre.x + cfg.horizon, cfg.cellSize)
    && FloorDiv(centre.y - cfg.horizon, cfg.cellSize) <= k.y <= FloorDiv(centre.y + cfg.horizon, cfg.cellSize)
    && FloorDiv(centre.z - cfg.horizon, cfg.verticalCellSize) <= k.z
    && k.z <= FloorDiv(centre.z + cfg.horizon, cfg.verticalCellSize)
  }

  /** The window holds every voxel of a position within the horizon on each axis, and no voxel whose
      centre is more than half a voxel further away. */
  lemma WindowIsHorizon(cfg: Config, centre: Vec3, p: Vec3, k: Key)
    requires Sane(cfg)
    ensures InBounds(p, Bounds(Vec3(centre.x - cfg.horizon, centre.y - cfg.horizon, centre.z - cfg.horizon),
                               Vec3(centre.x + cfg.horizon, centre.y + cfg.horizon, centre.z + cfg.horizon))) ==>
              InWindow(cfg, centre, CellKey(cfg, p))
    ensures InWindow(cfg, centre, k) ==>
              var c, h, sx, sz := CellCentre(cfg, k), cfg.horizon, cfg.cellSize / 2.0, cfg.verticalCellSize / 2.0;
              && centre.x - h - sx < c.x <= centre.x + h + sx
              && centre.y - h - sx < c.y <= centre.y + h + sx
              && centre.z - h - sz < c.z <= centre.z + h + sz
  {
    hide FloorDiv, Mid;
    AxisWindow(centre.x, cfg.horizon, cfg.cellSize, p.x, k.x);
    AxisWindow(centre.y, cfg.horizon, cfg.cellSize, p.y, k.y);
    AxisWindow(centre.z, cfg.horizon, cfg.verticalCellSize, p.z, k.z);
  }

  lemma AxisWindow(c: real, h: real, s: real, p: real, k: int)
    requires s > 0.0
    ensures c - h <= p <= c + h ==> FloorDiv(c - h, s) <= FloorDiv(p, s) <= FloorDiv(c + h, s)
    ensures FloorDiv(c - h, s) <= k <= FloorDiv(c + h, s) ==> c - h - s / 2.0 < Mid(k, s) <= c + h + s / 2.0
  {
    hide FloorDiv, Edge, Mid;
    if c - h <= p <= c + h {
      FloorDivMono(c - h, p, s);
      FloorDivMono(p, c + h, s);
    }
    MidOfSlab(k, s);
    var lo, hi := FloorDiv(c - h, s), FloorDiv(c + h, s);
    EdgeStep(lo, s);
    EdgeMono(lo, k, s);
    EdgeMono(k, hi, s);
  }

  /** Rows a window load selects. */
  function Selected(cfg: Config, db: map<Key, Row>, centre: Vec3): set<Key>
    requires Sane(cfg)
  {
    set k | k in db && InWindow(cfg, centre, k) && db[k].score >= cfg.minOccupiedScore
  }

  /** The cell a selected row becomes: an unflushed value wins over the row. */
  function LoadedCell(cfg: Config, dirty: map<Key, Cell>, db: map<Key, Row>, k: Key): Cell
    requires k in db
  {
    if k in dirty then dirty[k] else FromRow(cfg, k, db[k])
  }

  /** Live cells after the given selected rows have been loaded; resident cells stay. */
  function WithRows(cfg: Config, live: map<Key, Entry>, dirty: map<Key, Cell>, db: map<Key, Row>, rows: set<Key>)
    : map<Key, Entry>
    requires rows <= db.Keys
  {
    map k | k in live.Keys + rows :: if k in live then live[k] else Entry(LoadedCell(cfg, dirty, db, k), 0)
  }
}
