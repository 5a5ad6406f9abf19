/** Sequence-numbered delta snapshots: a replica that merges them follows the live cells. */
module Replica {
  import opened Grid
  import opened PlanningSpec

  /** The cells of a snapshot since a sequence number, in whatever order the map stores them. */
  ghost predicate IsDelta(live: map<Key, Entry>, since: nat, snap: seq<Cell>) {
    && (forall k :: k in live && live[k].writeSeq > since ==> live[k].cell in snap)
    && (forall c :: c in snap ==> exists k :: k in live && live[k].writeSeq > since && live[k].cell == c)
  }

  /** The keys written after a sequence number. */
  function LateKeys(live: map<Key, Entry>, since: nat): set<Key> {
    set k | k in live && live[k].writeSeq > since
  }

  /** A replica files every received cell under the key of its centre. */
  function Merged(cfg: Config, replica: map<Key, Cell>, snap: seq<Cell>): map<Key, Cell>
    requires Sane(cfg)
  {
    if snap == [] then replica
    else
      var last := snap[|snap| - 1];
      Merged(cfg, replica, snap[..|snap| - 1])[CellKey(cfg, last.centre) := last]
  }

  ghost predicate Agrees(replica: map<Key, Cell>, live: map<Key, Entry>) {
    forall k :: k in live ==> k in replica && replica[k] == live[k].cell
  }

  /** Any number of ticks, each with its clock reading and its evidence. */
  function Run(cfg: Config, sigmoid: real -> real, s: State, ticks: seq<(int, seq<L1Cell>)>): State
    requires Sane(cfg)
  {
    if ticks == [] then s
    else
      var last := ticks[|ticks| - 1];
      Updated(cfg, sigmoid, last.0, Run(cfg, sigmoid, s, ticks[..|ticks| - 1]), last.1)
  }

  lemma {:induction false} RunIsWellFormed(cfg: Config, sigmoid: real -> real, s: State, ticks: seq<(int, seq<L1Cell>)>)
    requires Sane(cfg) && Positive(sigmoid) && WellFormed(cfg, s)
    ensures WellFormed(cfg, Run(cfg, sigmoid, s, ticks))
    ensures Run(cfg, sigmoid, s, ticks).mapSeq == s.mapSeq + |ticks|
  {
    hide WellFormed;
    if ticks != [] {
      var n := |ticks| - 1;
      RunIsWellFormed(cfg, sigmoid, s, ticks[..n]);
      UpdatedIsWellFormed(cfg, sigmoid, ticks[n].0, Run(cfg, sigmoid, s, ticks[..n]), ticks[n].1);
    }
  }

  /** After any run, a live cell was either stamped after the start or is exactly what it was. */
  lemma {:induction false} RunStamps(cfg: Config, sigmoid: real -> real, s: State, ticks: seq<(int, seq<L1Cell>)>)
    requires Sane(cfg) && Positive(sigmoid) && WellFormed(cfg, s)
    ensures var s' := Run(cfg, sigmoid, s, ticks);
            forall k :: k in s'.live && s'.live[k].writeSeq <= s.mapSeq ==> k in s.live && s.live[k] == s'.live[k]
  {
    hide WellFormed, Updated;
    if ticks != [] {
      var n := |ticks| - 1;
      var prior := Run(cfg, sigmoid, s, ticks[..n]);
      RunStamps(cfg, sigmoid, s, ticks[..n]);
      RunIsWellFormed(cfg, sigmoid, s, ticks[..n]);
      RunIsWellFormed(cfg, sigmoid, s, ticks);
      UpdatedIsWellFormed(cfg, sigmoid, ticks[n].0, prior, ticks[n].1);
    }
  }

  lemma {:induction false} MergedValue(cfg: Config, replica: map<Key, Cell>, snap: seq<Cell>, k: Key)
    requires Sane(cfg)
    ensures (forall c :: c in snap ==> CellKey(cfg, c.centre) != k) ==>
              (k in Merged(cfg, replica, snap) <==> k in replica)
              && (k in replica ==> Merged(cfg, replica, snap)[k] == replica[k])
    ensures (exists c :: c in snap && CellKey(cfg, c.centre) == k) ==>
              k in Merged(cfg, replica, snap)
              && Merged(cfg, replica, snap)[k] in snap
              && CellKey(cfg, Merged(cfg, replica, snap)[k].centre) == k
  {
    hide CellKey;
    if snap != [] {
      var n := |snap| - 1;
      MergedValue(cfg, replica, snap[..n], k);
      assert snap == snap[..n] + [snap[n]];
    }
  }

  /** Distinct live keys hold distinct cells, because each cell sits at the centre of its key. */
  lemma KeyOfLiveCell(cfg: Config, s: State, k: Key)
    requires Sane(cfg) && WellFormed(cfg, s) && k in s.live
    ensures CellKey(cfg, s.live[k].cell.centre) == k
  {
    KeyOfCentre(k, cfg.cellSize, cfg.verticalCellSize);
  }

  /** A replica that agrees with the live cells at some sequence number agrees with them again
      after merging one later delta, however many ticks -- with their evictions and the moves
      those cause in the cell vector -- lie between. */
  lemma DeltaRestoresAgreement(cfg: Config, sigmoid: real -> real, s: State, ticks: seq<(int, seq<L1Cell>)>,
                               replica: map<Key, Cell>, snap: seq<Cell>)
    requires Sane(cfg) && Positive(sigmoid) && WellFormed(cfg, s) && Agrees(replica, s.live)
    requires IsDelta(Run(cfg, sigmoid, s, ticks).live, s.mapSeq, snap)
    ensures Agrees(Merged(cfg, replica, snap), Run(cfg, sigmoid, s, ticks).live)
  {
    hide CellKey, Run, WellFormed;
    var s' := Run(cfg, sigmoid, s, ticks);
    RunStamps(cfg, sigmoid, s, ticks);
    RunIsWellFormed(cfg, sigmoid, s, ticks);
    forall k | k in s'.live
      ensures k in Merged(cfg, replica, snap) && Merged(cfg, replica, snap)[k] == s'.live[k].cell
    {
      MergedValue(cfg, replica, snap, k);
      KeyOfLiveCell(cfg, s', k);
      DeltaHasOneCellPerKey(cfg, s', s.mapSeq, snap, k);
    }
  }

  lemma DeltaHasOneCellPerKey(cfg: Config, s: State, since: nat, snap: seq<Cell>, k: Key)
    requires Sane(cfg) && WellFormed(cfg, s) && IsDelta(s.live, since, snap) && k in s.live
    ensures forall c :: c in snap && CellKey(cfg, c.centre) == k ==> s.live[k].writeSeq > since && c == s.live[k].cell
  {
    hide CellKey, WellFormed;
    forall c | c in snap && CellKey(cfg, c.centre) == k
      ensures s.live[k].writeSeq > since && c == s.live[k].cell
    {
      var j :| j in s.live && s.live[j].writeSeq > since && s.live[j].cell == c;
      KeyOfLiveCell(cfg, s, j);
    }
  }

  /** A snapshot since zero is meant to be full.  It holds every live cell exactly when no live
      cell carries the write sequence number zero that cells loaded from the database get. */
  lemma FullSnapshotIsComplete(cfg: Config, s: State, snap: seq<Cell>)
    requires Sane(cfg) && WellFormed(cfg, s) && IsDelta(s.live, 0, snap)
    ensures (forall k :: k in s.live ==> s.live[k].cell in snap) <==> (forall k :: k in s.live ==> s.live[k].writeSeq != 0)
  {
    hide CellKey, WellFormed;
    if forall k :: k in s.live ==> s.live[k].cell in snap {
      forall k | k in s.live
        ensures s.live[k].writeSeq != 0
      {
        KeyOfLiveCell(cfg, s, k);
        DeltaHasOneCellPerKey(cfg, s, 0, snap, k);
      }
    }
  }

  /** A cell that a load brought in is live, yet no snapshot since any sequence number holds it. */
  lemma LoadedCellIsMissing(cfg: Config, s: State, db: map<Key, Row>, rows: set<Key>, k: Key, since: nat, snap: seq<Cell>)
    requires Sane(cfg) && rows <= db.Keys && k in rows && k !in s.live
    requires var after := s.(live := WithRows(cfg, s.live, s.dirty, db, rows));
             WellFormed(cfg, after) && IsDelta(after.live, since, snap)
    ensures var live := WithRows(cfg, s.live, s.dirty, db, rows);
            k in live && live[k].cell !in snap
  {
    hide CellKey, WellFormed, LoadedCell;
    var after := s.(live := WithRows(cfg, s.live, s.dirty, db, rows));
    KeyOfLiveCell(cfg, after, k);
    DeltaHasOneCellPerKey(cfg, after, since, snap, k);
  }
}
