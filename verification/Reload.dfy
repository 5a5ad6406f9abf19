/** Re-entering a region: what a window load makes of the keys that are not in memory, while the
    flush thread is anywhere in its work. */
module Reload {
  import opened Wrappers
  import opened Grid
  import opened PlanningSpec
  import opened FlushProtocol

  /** Equal in the columns a load reads. */
  predicate SameColumns(a: Row, b: Row) {
    a.score == b.score && a.confidence == b.confidence && a.count == b.count
  }

  /** Memory has the last written value of k, and nothing if there is none. */
  ghost predicate Restored(s: System, k: Key) {
    && (k in s.mem.live <==> k in s.truth)
    && (k in s.mem.live && k in s.truth ==> SameColumns(ToRow(s.mem.live[k].cell), s.truth[k]))
  }

  /** The table has a row for k that passes the load's score filter. */
  predicate Listed(cfg: Config, s: System, k: Key) {
    k in s.db && s.db[k].score >= cfg.minOccupiedScore
  }

  /** A load that finds a row is right if the key is marked dirty; if nothing about the key is
      queued; or if what is queued last agrees with the row.  A key queued for deletion is served a
      stale row, which is right only for a lost key whose last row happens to agree with it. */
  predicate RowIsCurrent(s: System, k: Key)
    requires k in s.db
  {
    if k in s.mem.dirty then true
    else if k in s.mem.evicted then k in s.lost && SameColumns(s.db[k], s.lost[k])
    else if s.flight.None? then true
    else
      var b := s.flight.value;
      if k in b.upserts && (k in b.deletes ==> k in s.lost) then SameColumns(s.db[k], ToRow(b.upserts[k]))
      else k in b.deletes ==> k in s.lost && SameColumns(s.db[k], s.lost[k])
  }

  /** A load that finds no row is right if the key has no value: it is not lost, no row of it is
      marked, and it is marked for deletion or neither the batch in flight nor the table has it. */
  predicate NothingToLoad(s: System, k: Key) {
    && k !in s.lost && k !in s.mem.dirty
    && (k in s.mem.evicted
        || (if s.flight.Some? then k in s.flight.value.deletes || (k !in s.flight.value.upserts && k !in s.db)
            else k !in s.db))
  }

  /** Re-entering a region is meant to bring back the last written cell.  After every run of
      ticks, slides, drains and commits, and for every key of the window that is not in memory:
      the load does so if and only if the row it finds is current, or it finds none and there is
      nothing to load. */
  lemma LoadIsCurrentIff(cfg: Config, sigmoid: real -> real, s: System, steps: seq<Step>, centre: Vec3, k: Key)
    requires Sane(cfg) && Opened(s)
    requires k !in Run(cfg, sigmoid, s, steps).mem.live && InWindow(cfg, centre, k)
    ensures var s' := Run(cfg, sigmoid, s, steps);
            Restored(Next(cfg, sigmoid, s', Load(Selected(cfg, s'.db, centre))), k) <==>
            if Listed(cfg, s', k) then RowIsCurrent(s', k) else NothingToLoad(s', k)
  {
    hide Run, InWindow, RowIsCurrent, NothingToLoad, Restored, Next;
    RunTracks(cfg, sigmoid, s, steps);
    var s' := Run(cfg, sigmoid, s, steps);
    assert TracksAt(s', k);
    LoadAtKey(cfg, sigmoid, s', centre, k);
    if Listed(cfg, s', k) {
      ListedIsCurrentIff(cfg, s', k);
    } else {
      UnlistedIsCurrentIff(s', k);
    }
  }

  lemma LoadAtKey(cfg: Config, sigmoid: real -> real, s: System, centre: Vec3, k: Key)
    requires Sane(cfg) && k !in s.mem.live && InWindow(cfg, centre, k)
    ensures var after := Next(cfg, sigmoid, s, Load(Selected(cfg, s.db, centre)));
            Restored(after, k) <==>
            if Listed(cfg, s, k) then k in s.truth && SameColumns(ToRow(LoadedCell(cfg, s.mem.dirty, s.db, k)), s.truth[k])
            else k !in s.truth
  {
    hide InWindow, SameColumns, ToRow, LoadedCell;
  }

  lemma ListedIsCurrentIff(cfg: Config, s: System, k: Key)
    requires TracksAt(s, k) && Listed(cfg, s, k)
    ensures RowIsCurrent(s, k) <==> k in s.truth && SameColumns(ToRow(LoadedCell(cfg, s.mem.dirty, s.db, k)), s.truth[k])
  {
    hide CellCentre, Commit;
    OverlayAtKey(s, k);
  }

  lemma UnlistedIsCurrentIff(s: System, k: Key)
    requires TracksAt(s, k)
    ensures NothingToLoad(s, k) <==> k !in s.truth
  {
    hide Commit, ToRow;
    OverlayAtKey(s, k);
  }

  /** Looking one key up in the overlaid database. */
  lemma OverlayAtKey(s: System, k: Key)
    ensures k in s.mem.evicted ==> k !in Overlay(s)
    ensures k !in s.mem.evicted && k in s.mem.dirty ==> k in Overlay(s) && Overlay(s)[k] == ToRow(s.mem.dirty[k])
    ensures k !in s.mem.evicted && k !in s.mem.dirty && s.flight.None? ==> SameAt(Overlay(s), s.db, k)
    ensures k !in s.mem.evicted && k !in s.mem.dirty && s.flight.Some? ==>
              var b := s.flight.value;
              && (k in b.deletes ==> k !in Overlay(s))
              && (k !in b.deletes && k in b.upserts ==> k in Overlay(s) && Overlay(s)[k] == ToRow(b.upserts[k]))
              && (k !in b.deletes && k !in b.upserts ==> SameAt(Overlay(s), s.db, k))
  {
    hide Commit, ToRow;
    var committed := if s.flight.Some? then Commit(s.db, s.flight.value) else s.db;
    if s.flight.Some? {
      CommitAtKey(s.db, s.flight.value, k);
    }
    CommitAtKey(committed, Batch(s.mem.dirty, s.mem.evicted), k);
  }

  // ---------------------------------------------------------------- each way of failing

  lemma OneObservation(cfg: Config, sigmoid: real -> real, n: nat, now: int, t: PlanningSpec.Tick, c: L1Cell)
    requires Sane(cfg)
    ensures ObserveAll(cfg, sigmoid, n, now, t, [c]) == Observe(cfg, sigmoid, n, now, t, c)
  {
    hide Observe;
    assert [c][..0] == [];
    assert ObserveAll(cfg, sigmoid, n, now, t, []) == t;
  }

  /** A cell that was cleared and not flushed yet comes back with the next load of its region. */
  lemma LoadRevivesCleared(cfg: Config, sigmoid: real -> real, s: System, now: int, p: Vec3, e: Entry)
    requires cfg == DEFAULTS && Positive(sigmoid) && Opened(s) && e.cell.logOdds == 0.8473
    requires CellKey(cfg, p) in s.db && s.mem.live == map[CellKey(cfg, p) := e]
    ensures var k := CellKey(cfg, p);
            var cleared := Next(cfg, sigmoid, s, Step.Tick(now, [FreeAt(p)]));
            var loaded := Next(cfg, sigmoid, cleared, Load({k}));
            k !in cleared.mem.live && k !in cleared.truth && k in loaded.mem.live && k !in loaded.truth
  {
    hide CellKey, CellCentre, Overwritten, WroteKeys;
    var n, k := s.mem.mapSeq + 1, CellKey(cfg, p);
    var t0 := PlanningSpec.Tick(s.mem.live, [], []);
    var t := Observe(cfg, sigmoid, n, now, t0, FreeAt(p));
    OneObservation(cfg, sigmoid, n, now, t0, FreeAt(p));
    assert t.live[k].cell.logOdds < 0.0 && t.cleared == [k] && t.live[k].cell.score == 0.0;
    assert k in Keys(t.cleared);
  }

  /** A cell that was created and not flushed yet does not come back: the load walks table rows,
      and the table has none for it, although its value is marked dirty. */
  lemma FreshCellIsNotReloaded(cfg: Config, sigmoid: real -> real, s: System, now: int, p: Vec3, rows: set<Key>)
    requires cfg == DEFAULTS && Positive(sigmoid) && Opened(s) && s.mem.live == map[] && CellKey(cfg, p) !in s.db
    ensures var k := CellKey(cfg, p);
            var far := Run(cfg, sigmoid, s, [Step.Tick(now, [HitAt(p, 1.0)]), EvictFar({k})]);
            var loaded := Next(cfg, sigmoid, far, Load(rows));
            && k in far.mem.dirty && k !in far.mem.evicted && far.flight.None? && k !in far.lost
            && k in loaded.truth && k !in loaded.mem.live
  {
    hide CellKey, Updated, Touched, TickOf, HitAt;
    var k := CellKey(cfg, p);
    AfterCreation(cfg, sigmoid, s, now, p);
    TwoSteps(cfg, sigmoid, s, Step.Tick(now, [HitAt(p, 1.0)]), EvictFar({k}));
  }

  lemma AfterCreation(cfg: Config, sigmoid: real -> real, s: System, now: int, p: Vec3)
    requires cfg == DEFAULTS && Opened(s) && s.mem.live == map[]
    ensures var k := CellKey(cfg, p);
            var s' := Next(cfg, sigmoid, s, Step.Tick(now, [HitAt(p, 1.0)]));
            k in s'.mem.dirty && k !in s'.mem.evicted && k !in s'.lost && k in s'.truth && s'.flight.None? && s'.db == s.db
  {
    hide CellKey, Updated, Touched, TickOf, HitAt;
    CreatingTick(cfg, sigmoid, s.mem, now, p);
    TickAtKey(cfg, sigmoid, s.mem, now, [HitAt(p, 1.0)], CellKey(cfg, p));
  }

  lemma CreatingTick(cfg: Config, sigmoid: real -> real, s: State, now: int, p: Vec3)
    requires cfg == DEFAULTS && s.live == map[]
    ensures var t := TickOf(cfg, sigmoid, s, now, [HitAt(p, 1.0)]);
            CellKey(cfg, p) in Touched(t) && Keys(t.cleared) == {}
  {
    hide CellKey, CellCentre;
    var t0 := PlanningSpec.Tick(s.live, [], []);
    var t := Observe(cfg, sigmoid, s.mapSeq + 1, now, t0, HitAt(p, 1.0));
    OneObservation(cfg, sigmoid, s.mapSeq + 1, now, t0, HitAt(p, 1.0));
    assert t.wrote[0].0 == CellKey(cfg, p) && t.cleared == [];
  }

  lemma TwoSteps(cfg: Config, sigmoid: real -> real, s: System, a: Step, b: Step)
    requires Sane(cfg)
    ensures Run(cfg, sigmoid, s, [a, b]) == Next(cfg, sigmoid, Next(cfg, sigmoid, s, a), b)
  {
    hide Next;
    assert [a, b][..1] == [a] && [a][..0] == [];
    assert Run(cfg, sigmoid, s, []) == s;
    assert Run(cfg, sigmoid, s, [a]) == Next(cfg, sigmoid, s, a);
  }

  /** Lost keys have to be remembered on the side: two runs can leave map, table and flight in the
      same state although the rows last written differ, so no load could tell them apart. */
  lemma LostRowIsUnrecoverable(cfg: Config, sigmoid: real -> real, s: System, now: int, p: Vec3)
    requires cfg == DEFAULTS && Positive(sigmoid) && Opened(s) && s.mem.live == map[]
    ensures var k := CellKey(cfg, p);
            var a := Run(cfg, sigmoid, s, [Step.Tick(now, [HitAt(p, 1.0), FreeAt(p), HitAt(p, 1.0)]), EvictFar({k})]);
            var b := Run(cfg, sigmoid, s, [Step.Tick(now, [HitAt(p, 0.5), FreeAt(p), HitAt(p, 0.5)]), EvictFar({k})]);
            && a.mem == b.mem && a.db == b.db && a.flight == b.flight
            && k in a.truth && k in b.truth && !SameColumns(a.truth[k], b.truth[k])
  {
    hide CellKey, Run, HitAt, FreeAt;
    ResurrectedThenFar(cfg, sigmoid, s, now, p, 1.0);
    ResurrectedThenFar(cfg, sigmoid, s, now, p, 0.5);
  }

  lemma ResurrectedThenFar(cfg: Config, sigmoid: real -> real, s: System, now: int, p: Vec3, confidence: real)
    requires cfg == DEFAULTS && Positive(sigmoid) && Opened(s) && s.mem.live == map[] && 0.0 < confidence <= 1.0
    ensures var k := CellKey(cfg, p);
            var far := Run(cfg, sigmoid, s, [Step.Tick(now, [HitAt(p, confidence), FreeAt(p), HitAt(p, confidence)]), EvictFar({k})]);
            && far.mem == State(map[], map[], {k}, s.mem.mapSeq + 1) && far.db == s.db && far.flight == None
            && k in far.truth && far.truth[k].confidence == confidence
  {
    hide CellKey, Updated, Touched, TickOf, HitAt, FreeAt;
    ResurrectingTick(cfg, sigmoid, s, now, p, p, p, confidence);
    TwoSteps(cfg, sigmoid, s, Step.Tick(now, [HitAt(p, confidence), FreeAt(p), HitAt(p, confidence)]), EvictFar({CellKey(cfg, p)}));
  }
}
