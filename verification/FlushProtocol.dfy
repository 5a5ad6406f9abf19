/** Persistence of the planning map: ticks, window slides and the two-step flush interleave
    freely, the flush thread committing its batch while ticks go on. */
module FlushProtocol {
  import opened Wrappers
  import opened Grid
  import opened PlanningSpec

  /** What the flush thread drained under the lock and has not committed yet. */
  datatype Batch = Batch(upserts: map<Key, Cell>, deletes: set<Key>)

  /** The map, the database, the batch in flight, and two specification variables: the row that
      was last written for each key (none after an eviction), and the keys -- with that row --
      that were rewritten after their eviction within one flush window. */
  datatype System = System(mem: State, db: map<Key, Row>, flight: Option<Batch>,
                           truth: map<Key, Row>, lost: map<Key, Row>)

  datatype Step =
    | Tick(now: int, evidence: seq<L1Cell>)
    | EvictFar(gone: set<Key>)
    | Load(rows: set<Key>)
    | FlushDrain
    | FlushCommit

  function Rows(cells: map<Key, Cell>): map<Key, Row> {
    map k | k in cells :: ToRow(cells[k])
  }

  /** A commit runs all upserts, then all deletes. */
  function Commit(db: map<Key, Row>, b: Batch): map<Key, Row> {
    (db + Rows(b.upserts)) - b.deletes
  }

  /** The table after the row-by-row statements of one flush, in whatever order the drained
      containers are walked. */
  method CommitRows(table: map<Key, Row>, b: Batch) returns (db: map<Key, Row>)
    ensures db == Commit(table, b)
  {
    db := table;
    var rest := b.upserts.Keys;
    while rest != {}
      invariant rest <= b.upserts.Keys
      invariant db == table + Rows(b.upserts - rest)
    {
      var k :| k in rest;
      assert b.upserts - (rest - {k}) == (b.upserts - rest)[k := b.upserts[k]];
      db := db[k := ToRow(b.upserts[k])];
      rest := rest - {k};
    }
    assert b.upserts - {} == b.upserts;
    rest := b.deletes;
    while rest != {}
      invariant rest <= b.deletes
      invariant db == (table + Rows(b.upserts)) - (b.deletes - rest)
    {
      var k :| k in rest;
      assert b.deletes - (rest - {k}) == (b.deletes - rest) + {k};
      db := db - {k};
      rest := rest - {k};
    }
    assert b.deletes - {} == b.deletes;
  }

  function WroteKeys(wrote: seq<(Key, Cell)>): set<Key> {
    set i | 0 <= i < |wrote| :: wrote[i].0
  }

  function TickOf(cfg: Config, sigmoid: real -> real, s: State, now: int, evidence: seq<L1Cell>): PlanningSpec.Tick
    requires Sane(cfg)
  {
    ObserveAll(cfg, sigmoid, s.mapSeq + 1, now, PlanningSpec.Tick(s.live, [], []), evidence)
  }

  function Touched(t: PlanningSpec.Tick): set<Key> {
    WroteKeys(t.wrote) + Keys(t.cleared)
  }

  function Next(cfg: Config, sigmoid: real -> real, s: System, step: Step): System
    requires Sane(cfg)
  {
    match step
    case Tick(now, evidence) =>
      var mem := Updated(cfg, sigmoid, now, s.mem, evidence);
      var touched := Touched(TickOf(cfg, sigmoid, s.mem, now, evidence));
      var written := map k | k in touched && k in mem.live :: ToRow(mem.live[k].cell);
      s.(mem := mem,
         truth := (s.truth - touched) + written,
         lost := (s.lost - touched) + map k | k in written && k in mem.evicted :: written[k])
    case EvictFar(gone) =>
      s.(mem := s.mem.(live := s.mem.live - gone))
    case Load(rows) =>
      s.(mem := s.mem.(live := WithRows(cfg, s.mem.live, s.mem.dirty, s.db, rows * s.db.Keys)))
    case FlushDrain =>
      if s.flight.Some? then s
      else s.(mem := s.mem.(dirty := map[], evicted := {}), flight := Some(Batch(s.mem.dirty, s.mem.evicted)))
    case FlushCommit =>
      if s.flight.None? then s
      else s.(db := Commit(s.db, s.flight.value), flight := None)
  }

  /** The database once everything in flight and everything marked has been flushed. */
  function Overlay(s: System): map<Key, Row> {
    var committed := if s.flight.Some? then Commit(s.db, s.flight.value) else s.db;
    Commit(committed, Batch(s.mem.dirty, s.mem.evicted))
  }

  ghost predicate SameAt(a: map<Key, Row>, b: map<Key, Row>, k: Key) {
    (k in a <==> k in b) && (k in a ==> a[k] == b[k])
  }

  /** The overlaid database is right at k unless k is lost; a lost key is absent from the overlay
      although it was last written.  A marked row is always the last one written, and so is the
      row of a lost key in the batch in flight while the key is not marked again. */
  ghost predicate TracksAt(s: System, k: Key) {
    && (k in s.lost ==> k !in Overlay(s) && k in s.truth && s.truth[k] == s.lost[k])
    && (k !in s.lost ==> SameAt(Overlay(s), s.truth, k))
    && (k in s.mem.dirty ==> k in s.truth && s.truth[k] == ToRow(s.mem.dirty[k]))
    && (k in s.lost && k !in s.mem.dirty && k !in s.mem.evicted && s.flight.Some? && k in s.flight.value.upserts ==>
          s.lost[k] == ToRow(s.flight.value.upserts[k]))
  }

  ghost predicate Tracks(s: System) {
    forall k :: TracksAt(s, k)
  }

  // ---------------------------------------------------------------- what one tick touches

  /** Cells and rows of a tick in progress against its start. */
  ghost predicate TouchInvariant(start: map<Key, Entry>, rows: map<Key, Cell>, t: PlanningSpec.Tick) {
    && (forall k :: k !in Touched(t) ==> (k in t.live <==> k in start) && (k in start ==> t.live[k] == start[k]))
    && (forall k :: k in WroteKeys(t.wrote) && k !in Keys(t.cleared) ==>
          k in t.live && k in Overwritten(rows, t.wrote) && Overwritten(rows, t.wrote)[k] == t.live[k].cell)
    && (forall k :: k !in WroteKeys(t.wrote) ==>
          (k in Overwritten(rows, t.wrote) <==> k in rows) && (k in rows ==> Overwritten(rows, t.wrote)[k] == rows[k]))
  }

  lemma WroteKeysStep(wrote: seq<(Key, Cell)>, k: Key, c: Cell)
    ensures WroteKeys(wrote + [(k, c)]) == WroteKeys(wrote) + {k}
    ensures forall rows: map<Key, Cell> :: Overwritten(rows, wrote + [(k, c)]) == Overwritten(rows, wrote)[k := c]
  {
    var w := wrote + [(k, c)];
    assert w[..|wrote|] == wrote;
    forall j
      ensures j in WroteKeys(w) <==> j in WroteKeys(wrote) + {k}
    {
      if j in WroteKeys(wrote) {
        var i :| 0 <= i < |wrote| && wrote[i].0 == j;
        assert w[i].0 == j;
      }
      if j == k {
        assert w[|wrote|].0 == j;
      }
    }
  }

  lemma ClearedStep(cleared: seq<Key>, k: Key)
    ensures Keys(cleared + [k]) == Keys(cleared) + {k}
  {}

  lemma WriteTouches(start: map<Key, Entry>, rows: map<Key, Cell>, t: PlanningSpec.Tick, k: Key, cell: Cell, n: nat)
    requires TouchInvariant(start, rows, t)
    ensures TouchInvariant(start, rows, t.(live := t.live[k := Entry(cell, n)], wrote := t.wrote + [(k, cell)]))
  {
    hide WroteKeys, Keys, Overwritten;
    WroteKeysStep(t.wrote, k, cell);
    assert Overwritten(rows, t.wrote + [(k, cell)]) == Overwritten(rows, t.wrote)[k := cell];
  }

  lemma ClearTouches(start: map<Key, Entry>, rows: map<Key, Cell>, t: PlanningSpec.Tick, k: Key, e: Entry)
    requires TouchInvariant(start, rows, t)
    ensures TouchInvariant(start, rows, t.(live := t.live[k := e], cleared := t.cleared + [k]))
  {
    hide WroteKeys, Keys, Overwritten;
    ClearedStep(t.cleared, k);
  }

  lemma ObserveTouches(cfg: Config, sigmoid: real -> real, n: nat, now: int,
                       start: map<Key, Entry>, rows: map<Key, Cell>, t: PlanningSpec.Tick, c: L1Cell)
    requires Sane(cfg) && TouchInvariant(start, rows, t)
    ensures TouchInvariant(start, rows, Observe(cfg, sigmoid, n, now, t, c))
  {
    hide CellKey, CellCentre, TouchInvariant, Reinforced, Created, Weakened;
    var t' := Observe(cfg, sigmoid, n, now, t, c);
    var k := CellKey(cfg, c.centre);
    if t'.wrote != t.wrote {
      WriteTouches(start, rows, t, k, t'.live[k].cell, n);
    } else if t'.cleared != t.cleared {
      ClearTouches(start, rows, t, k, t'.live[k]);
    }
  }

  lemma {:induction false} ObserveAllTouches(cfg: Config, sigmoid: real -> real, n: nat, now: int,
                                             start: map<Key, Entry>, rows: map<Key, Cell>, cs: seq<L1Cell>)
    requires Sane(cfg)
    ensures TouchInvariant(start, rows, ObserveAll(cfg, sigmoid, n, now, PlanningSpec.Tick(start, [], []), cs))
  {
    hide TouchInvariant, Observe;
    if cs == [] {
      NothingTouched(start, rows);
    } else {
      ObserveAllTouches(cfg, sigmoid, n, now, start, rows, cs[..|cs| - 1]);
      ObserveTouches(cfg, sigmoid, n, now, start, rows,
                     ObserveAll(cfg, sigmoid, n, now, PlanningSpec.Tick(start, [], []), cs[..|cs| - 1]), cs[|cs| - 1]);
    }
  }

  lemma NothingTouched(start: map<Key, Entry>, rows: map<Key, Cell>)
    ensures TouchInvariant(start, rows, PlanningSpec.Tick(start, [], []))
  {}

  /** A tick on one key: untouched keys keep their cell, row and eviction mark; a key cleared
      in the tick has a delete queued and no row; a key only written has its live value queued. */
  lemma TickAtKey(cfg: Config, sigmoid: real -> real, s: State, now: int, evidence: seq<L1Cell>, k: Key)
    requires Sane(cfg)
    ensures var t := TickOf(cfg, sigmoid, s, now, evidence);
            var s' := Updated(cfg, sigmoid, now, s, evidence);
            if k !in Touched(t) then
              (k in s'.dirty <==> k in s.dirty) && (k in s.dirty ==> s'.dirty[k] == s.dirty[k])
              && (k in s'.evicted <==> k in s.evicted)
            else if k in Keys(t.cleared) then k !in s'.dirty && k in s'.evicted
            else k in s'.live && k in s'.dirty && s'.dirty[k] == s'.live[k].cell && (k in s'.evicted <==> k in s.evicted)
  {
    hide ObserveAll, WroteKeys, Overwritten;
    ObserveAllTouches(cfg, sigmoid, s.mapSeq + 1, now, s.live, s.dirty, evidence);
  }

  // ---------------------------------------------------------------- every step, every run

  /** Looking one key up in a commit. */
  lemma CommitAtKey(db: map<Key, Row>, b: Batch, k: Key)
    ensures k in b.deletes ==> k !in Commit(db, b)
    ensures k !in b.deletes && k in b.upserts ==> k in Commit(db, b) && Commit(db, b)[k] == ToRow(b.upserts[k])
    ensures k !in b.deletes && k !in b.upserts ==> SameAt(Commit(db, b), db, k)
  {}

  lemma TickTracks(cfg: Config, sigmoid: real -> real, s: System, now: int, evidence: seq<L1Cell>)
    requires Sane(cfg) && Tracks(s)
    ensures Tracks(Next(cfg, sigmoid, s, Step.Tick(now, evidence)))
  {
    hide Updated, Touched, TickOf, Commit, Keys;
    var s' := Next(cfg, sigmoid, s, Step.Tick(now, evidence));
    forall k ensures TracksAt(s', k) {
      assert TracksAt(s, k);
      var committed := if s.flight.Some? then Commit(s.db, s.flight.value) else s.db;
      TickAtKey(cfg, sigmoid, s.mem, now, evidence, k);
      CommitAtKey(committed, Batch(s.mem.dirty, s.mem.evicted), k);
      CommitAtKey(committed, Batch(s'.mem.dirty, s'.mem.evicted), k);
    }
  }

  /** Every step of every interleaving keeps the overlay right except at lost keys. */
  lemma StepTracks(cfg: Config, sigmoid: real -> real, s: System, step: Step)
    requires Sane(cfg) && Tracks(s)
    ensures Tracks(Next(cfg, sigmoid, s, step))
  {
    hide Updated, Commit, TickOf, Touched, Selected, WithRows, ToRow;
    var s' := Next(cfg, sigmoid, s, step);
    if step.Tick? {
      TickTracks(cfg, sigmoid, s, step.now, step.evidence);
    } else {
      EmptyCommit(Overlay(s));
      assert Overlay(s') == Overlay(s);
      forall k ensures TracksAt(s', k) {
        assert TracksAt(s, k);
        if step.FlushDrain? && s.flight.None? {
          CommitAtKey(s.db, Batch(s.mem.dirty, s.mem.evicted), k);
        }
      }
    }
  }

  lemma EmptyCommit(db: map<Key, Row>)
    ensures Commit(db, Batch(map[], {})) == db
  {}

  function Run(cfg: Config, sigmoid: real -> real, s: System, steps: seq<Step>): System
    requires Sane(cfg)
  {
    if steps == [] then s
    else Next(cfg, sigmoid, Run(cfg, sigmoid, s, steps[..|steps| - 1]), steps[|steps| - 1])
  }

  /** A freshly opened map: nothing queued, nothing in flight, truth is what the table holds. */
  predicate Opened(s: System) {
    s.mem.dirty == map[] && s.mem.evicted == {} && s.flight.None? && s.truth == s.db && s.lost == map[]
  }

  lemma {:induction false} RunTracks(cfg: Config, sigmoid: real -> real, s: System, steps: seq<Step>)
    requires Sane(cfg) && Opened(s)
    ensures Tracks(Run(cfg, sigmoid, s, steps))
  {
    hide Next, Tracks;
    if steps == [] {
      OpenedTracks(s);
    } else {
      RunTracks(cfg, sigmoid, s, steps[..|steps| - 1]);
      StepTracks(cfg, sigmoid, Run(cfg, sigmoid, s, steps[..|steps| - 1]), steps[|steps| - 1]);
    }
  }

  lemma OpenedTracks(s: System)
    requires Opened(s)
    ensures Tracks(s)
  {
    EmptyCommit(s.db);
    assert forall k :: TracksAt(s, k);
  }

  /** After any run the database, overlaid with the batch in flight and then with the marked
      rows and keys, holds the last written value of a key exactly when the key is not lost. */
  lemma OverlayIsTruthIff(cfg: Config, sigmoid: real -> real, s: System, steps: seq<Step>, k: Key)
    requires Sane(cfg) && Opened(s)
    ensures var s' := Run(cfg, sigmoid, s, steps);
            SameAt(Overlay(s'), s'.truth, k) <==> k !in s'.lost
  {
    hide Overlay;
    RunTracks(cfg, sigmoid, s, steps);
    assert TracksAt(Run(cfg, sigmoid, s, steps), k);
  }

  /** A tick that leaves no key it touched both live and queued for deletion. */
  ghost predicate CleanStep(cfg: Config, sigmoid: real -> real, s: System, step: Step)
    requires Sane(cfg)
  {
    step.Tick? ==>
      var after := Next(cfg, sigmoid, s, step).mem;
      forall k :: k in Touched(TickOf(cfg, sigmoid, s.mem, step.now, step.evidence)) ==> k !in after.live || k !in after.evicted
  }

  /** No key is rewritten after its eviction within one flush window. */
  ghost predicate NoRewriteAfterEviction(cfg: Config, sigmoid: real -> real, s: System, steps: seq<Step>)
    requires Sane(cfg)
  {
    steps == [] ||
    (NoRewriteAfterEviction(cfg, sigmoid, s, steps[..|steps| - 1]) &&
     CleanStep(cfg, sigmoid, Run(cfg, sigmoid, s, steps[..|steps| - 1]), steps[|steps| - 1]))
  }

  lemma {:induction false} NothingLost(cfg: Config, sigmoid: real -> real, s: System, steps: seq<Step>)
    requires Sane(cfg) && Opened(s) && NoRewriteAfterEviction(cfg, sigmoid, s, steps)
    ensures Run(cfg, sigmoid, s, steps).lost == map[]
  {
    hide Updated, Commit, TickOf, Touched, WithRows;
    if steps != [] {
      NothingLost(cfg, sigmoid, s, steps[..|steps| - 1]);
    }
  }

  /** Under that hypothesis a final drain and commit leaves the table equal to the truth. */
  lemma FlushedTableIsTruth(cfg: Config, sigmoid: real -> real, s: System, steps: seq<Step>)
    requires Sane(cfg) && Opened(s) && NoRewriteAfterEviction(cfg, sigmoid, s, steps)
    ensures var s' := Run(cfg, sigmoid, s, steps);
            var idle := if s'.flight.Some? then Next(cfg, sigmoid, s', FlushCommit) else s';
            Next(cfg, sigmoid, Next(cfg, sigmoid, idle, FlushDrain), FlushCommit).db == s'.truth
  {
    hide Run, NoRewriteAfterEviction, Commit, Updated, TickOf, Touched;
    var s' := Run(cfg, sigmoid, s, steps);
    RunTracks(cfg, sigmoid, s, steps);
    NothingLost(cfg, sigmoid, s, steps);
    var held := Overlay(s');
    forall k
      ensures k in held <==> k in s'.truth
      ensures k in held ==> held[k] == s'.truth[k]
    {
      assert TracksAt(s', k);
    }
    assert held == s'.truth;
  }

  /** The hypothesis is needed, and one tick is enough to break it: a hit, a clearing free
      observation and another hit in the same voxel leave the cell live in memory while its
      deletion is queued, so the flushed table never gets the row. */
  lemma SameTickResurrectionIsLost(cfg: Config, sigmoid: real -> real, s: System, now: int, p: Vec3, q: Vec3, r: Vec3)
    requires cfg == DEFAULTS && CellKey(cfg, p) == CellKey(cfg, q) == CellKey(cfg, r)
    requires Positive(sigmoid) && Opened(s) && s.mem.live == map[]
    ensures var s' := Next(cfg, sigmoid, s, Step.Tick(now, [HitAt(p, 1.0), FreeAt(q), HitAt(r, 1.0)]));
            var k := CellKey(cfg, p);
            k in s'.mem.live && k in s'.truth && k in s'.lost && k !in Overlay(s')
  {
    hide CellKey, CellCentre, Overlay, TracksAt, Next;
    ResurrectingTick(cfg, sigmoid, s, now, p, q, r, 1.0);
    OpenedTracks(s);
    TickTracks(cfg, sigmoid, s, now, [HitAt(p, 1.0), FreeAt(q), HitAt(r, 1.0)]);
    LostIsMissing(Next(cfg, sigmoid, s, Step.Tick(now, [HitAt(p, 1.0), FreeAt(q), HitAt(r, 1.0)])), CellKey(cfg, p));
  }

  lemma LostIsMissing(s: System, k: Key)
    requires TracksAt(s, k) && k in s.lost
    ensures k !in Overlay(s)
  {}

  const DEFAULTS := Config(1.0, 2.0, 0.5, 0.8473, 2.197, 8.0, 0.0, 150.0)

  function HitAt(p: Vec3, confidence: real): L1Cell {
    L1Cell(L1State.Occupied, p, 0.7, confidence)
  }

  function FreeAt(p: Vec3): L1Cell {
    L1Cell(ObservedFree, p, 0.1, 1.0)
  }

  lemma ResurrectingTick(cfg: Config, sigmoid: real -> real, s: System, now: int, p: Vec3, q: Vec3, r: Vec3, confidence: real)
    requires cfg == DEFAULTS && CellKey(cfg, p) == CellKey(cfg, q) == CellKey(cfg, r) && 0.0 < confidence <= 1.0
    requires Positive(sigmoid) && Opened(s) && s.mem.live == map[]
    ensures var s' := Next(cfg, sigmoid, s, Step.Tick(now, [HitAt(p, confidence), FreeAt(q), HitAt(r, confidence)]));
            var k := CellKey(cfg, p);
            && s'.mem.live.Keys == {k} && s'.mem.dirty == map[] && s'.mem.evicted == {k} && s'.mem.mapSeq == s.mem.mapSeq + 1
            && s'.db == s.db && s'.flight == None
            && k in s'.truth && k in s'.lost && s'.truth[k].confidence == confidence
  {
    hide CellKey, CellCentre, Observe, Overwritten, ObserveAll, HitAt, FreeAt;
    var n, k := s.mem.mapSeq + 1, CellKey(cfg, p);
    var t0 := PlanningSpec.Tick(s.mem.live, [], []);
    ThreeObservations(cfg, sigmoid, n, now, t0, HitAt(p, confidence), FreeAt(q), HitAt(r, confidence));
    var t := Resurrected(cfg, sigmoid, n, now, p, q, r, confidence);
    assert Keys(t.cleared) == {k} && k in WroteKeys(t.wrote) && WroteKeys(t.wrote) <= {k};
    OverwrittenKeys(s.mem.dirty, t.wrote, k);
  }

  /** The cell after a hit, a clearing free observation and another hit. */
  lemma Resurrected(cfg: Config, sigmoid: real -> real, n: nat, now: int, p: Vec3, q: Vec3, r: Vec3, confidence: real)
    returns (t: PlanningSpec.Tick)
    requires cfg == DEFAULTS && CellKey(cfg, p) == CellKey(cfg, q) == CellKey(cfg, r) && 0.0 < confidence <= 1.0
    requires Positive(sigmoid)
    ensures t == Observe(cfg, sigmoid, n, now, Observe(cfg, sigmoid, n, now,
                         Observe(cfg, sigmoid, n, now, PlanningSpec.Tick(map[], [], []), HitAt(p, confidence)), FreeAt(q)), HitAt(r, confidence))
    ensures var k := CellKey(cfg, p);
            && t.live.Keys == {k} && t.cleared == [k] && |t.wrote| == 2 && t.wrote[0].0 == k == t.wrote[1].0
            && t.live[k].cell.score > 0.0 && t.live[k].cell.confidence == confidence
  {
    hide CellKey, CellCentre;
    var k := CellKey(cfg, p);
    var t1 := Observe(cfg, sigmoid, n, now, PlanningSpec.Tick(map[], [], []), HitAt(p, confidence));
    assert t1.live[k].cell.logOdds <= 0.8473 && t1.live[k].cell.confidence == confidence && t1.live.Keys == {k};
    var t2 := Observe(cfg, sigmoid, n, now, t1, FreeAt(q));
    assert t2.cleared == [k] && t2.live.Keys == {k} && t2.live[k].cell.confidence == confidence && t2.wrote == t1.wrote;
    t := Observe(cfg, sigmoid, n, now, t2, HitAt(r, confidence));
  }

  lemma {:induction false} OverwrittenKeys(rows: map<Key, Cell>, wrote: seq<(Key, Cell)>, k: Key)
    requires forall i :: 0 <= i < |wrote| ==> wrote[i].0 == k
    ensures Overwritten(rows, wrote) - {k} == rows - {k}
  {
    if wrote != [] {
      OverwrittenKeys(rows, wrote[..|wrote| - 1], k);
    }
  }

  lemma ThreeObservations(cfg: Config, sigmoid: real -> real, n: nat, now: int, t: PlanningSpec.Tick,
                          a: L1Cell, b: L1Cell, c: L1Cell)
    requires Sane(cfg)
    ensures ObserveAll(cfg, sigmoid, n, now, t, [a, b, c]) ==
            Observe(cfg, sigmoid, n, now, Observe(cfg, sigmoid, n, now, Observe(cfg, sigmoid, n, now, t, a), b), c)
  {
    hide Observe;
    assert [a, b, c][..2] == [a, b] && [a, b][..1] == [a] && [a][..0] == [];
    assert ObserveAll(cfg, sigmoid, n, now, t, [a]) == Observe(cfg, sigmoid, n, now, t, a);
    assert ObserveAll(cfg, sigmoid, n, now, t, [a, b]) == Observe(cfg, sigmoid, n, now, Observe(cfg, sigmoid, n, now, t, a), b);
  }
}
