/** Level 0: the mission-local obstacle map.  Evidence is compacted per cell, then merged; the
    class is proved to follow EvidenceSpec and to conserve every accepted item. */
module ObstacleMap {
  import opened Grid
  import opened KeyedVector
  import opened EvidenceSpec
  import opened EvidenceHistory

  function DigestSize(d: Digest): nat { d.positive + d.negative }
  function CellSize(c: Cell): nat { c.positive + c.negative }
  function CellDuplicates(c: Cell): nat { c.duplicates }
  function OccupiedOne(c: Cell): nat { if c.occupied then 1 else 0 }
  function FreeOne(c: Cell): nat { if c.free then 1 else 0 }

  // ---------------------------------------------------------------- compaction

  /** A compaction vector: exactly one digest per key with accepted evidence. */
  ghost predicate Compacted(acc: seq<Seen>, ups: seq<Keyed<Digest>>, index: map<Key, nat>) {
    && IndexOk(ups, index)
    && (forall k :: k in index <==> OfKey(acc, k) != [])
    && (forall k :: k in index ==> Contents(ups, index)[k] == DigestOf(OfKey(acc, k)))
    && Sum(ups, DigestSize) == |acc|
  }

  lemma OfKeyPush(acc: seq<Seen>, s: Seen, k: Key)
    ensures OfKey(acc + [s], k) == OfKey(acc, k) + (if s.key == k then [s.item] else [])
  {
    assert (acc + [s])[..|acc|] == acc;
  }

  lemma DigestPush(items: seq<Evidence>, e: Evidence)
    ensures DigestOf(items + [e]) == Absorb(if items == [] then Opened(e) else DigestOf(items), e)
  {
    assert (items + [e])[..|items|] == items;
  }

  lemma AbsorbGrows(d: Digest, e: Evidence)
    ensures DigestSize(Absorb(d, e)) == DigestSize(d) + 1
    ensures DigestSize(Opened(e)) == 0
  {}

  lemma DigestsFollow(acc: seq<Seen>, s: Seen, before: map<Key, Digest>, after: map<Key, Digest>)
    requires forall k :: k in before <==> OfKey(acc, k) != []
    requires forall k :: k in before ==> before[k] == DigestOf(OfKey(acc, k))
    requires after == before[s.key := Absorb(if s.key in before then before[s.key] else Opened(s.item), s.item)]
    ensures forall k :: k in after <==> OfKey(acc + [s], k) != []
    ensures forall k :: k in after ==> after[k] == DigestOf(OfKey(acc + [s], k))
  {
    hide OfKey, DigestOf, Absorb, Opened;
    forall k
      ensures k in after <==> OfKey(acc + [s], k) != []
      ensures k in after ==> after[k] == DigestOf(OfKey(acc + [s], k))
    {
      OfKeyPush(acc, s, k);
      assert OfKey(acc, k) + [] == OfKey(acc, k);
      DigestPush(OfKey(acc, k), s.item);
    }
  }

  lemma FirstOfKey(acc: seq<Seen>, s: Seen, ups: seq<Keyed<Digest>>, index: map<Key, nat>)
    requires Compacted(acc, ups, index) && s.key !in index
    ensures Compacted(acc + [s], ups + [Keyed(s.key, Absorb(Opened(s.item), s.item))], index[s.key := |ups|])
  {
    hide IndexOk, Contents, OfKey, DigestOf, Absorb, Opened, Sum, DigestSize;
    var d := Absorb(Opened(s.item), s.item);
    PushPuts(ups, index, s.key, d);
    SumPush(ups, s.key, d, DigestSize);
    AbsorbGrows(Opened(s.item), s.item);
    KeysOfContents(ups, index);
    KeysOfContents(ups + [Keyed(s.key, d)], index[s.key := |ups|]);
    DigestsFollow(acc, s, Contents(ups, index), Contents(ups, index)[s.key := d]);
  }

  lemma MoreOfKey(acc: seq<Seen>, s: Seen, ups: seq<Keyed<Digest>>, index: map<Key, nat>)
    requires Compacted(acc, ups, index) && s.key in index
    ensures Compacted(acc + [s], ups[index[s.key] := Keyed(s.key, Absorb(ups[index[s.key]].value, s.item))], index)
  {
    hide IndexOk, Contents, OfKey, DigestOf, Absorb, Opened, Sum, DigestSize;
    KeysOfContents(ups, index);
    var i := index[s.key];
    var d := Absorb(ups[i].value, s.item);
    RewritePuts(ups, index, s.key, d);
    SumRewrite(ups, i, Keyed(s.key, d), DigestSize);
    AbsorbGrows(ups[i].value, s.item);
    KeysOfContents(ups[i := Keyed(s.key, d)], index);
    DigestsFollow(acc, s, Contents(ups, index), Contents(ups, index)[s.key := d]);
  }

  lemma KeysOfContents<T>(cells: seq<Keyed<T>>, index: map<Key, nat>)
    requires IndexOk(cells, index)
    ensures Contents(cells, index).Keys == index.Keys
    ensures forall k :: k in index ==> index[k] < |cells| && Contents(cells, index)[k] == cells[index[k]].value
  {}

  // ---------------------------------------------------------------- merging

  /** Digests merged one after another. */
  function Applied(cfg: Config, now: int, cells: map<Key, Cell>, ups: seq<Keyed<Digest>>): map<Key, Cell> {
    if ups == [] then cells
    else
      var n := |ups| - 1;
      var m := Applied(cfg, now, cells, ups[..n]);
      m[ups[n].key := MergedInto(cfg, now, m, ups[n].key, ups[n].value)]
  }

  ghost predicate DistinctKeys(ups: seq<Keyed<Digest>>) {
    forall i, j :: 0 <= i < j < |ups| ==> ups[i].key != ups[j].key
  }

  lemma {:induction false} AppliedElsewhere(cfg: Config, now: int, cells: map<Key, Cell>, ups: seq<Keyed<Digest>>, k: Key)
    requires forall i :: 0 <= i < |ups| ==> ups[i].key != k
    ensures k in Applied(cfg, now, cells, ups) <==> k in cells
    ensures k in cells ==> Applied(cfg, now, cells, ups)[k] == cells[k]
  {
    hide MergedInto;
    if ups != [] {
      AppliedElsewhere(cfg, now, cells, ups[..|ups| - 1], k);
    }
  }

  lemma MergedIntoLocal(cfg: Config, now: int, a: map<Key, Cell>, b: map<Key, Cell>, k: Key, d: Digest)
    requires (k in a <==> k in b) && (k in a ==> a[k] == b[k])
    ensures MergedInto(cfg, now, a, k, d) == MergedInto(cfg, now, b, k, d)
  {}

  lemma {:induction false} AppliedAt(cfg: Config, now: int, cells: map<Key, Cell>, ups: seq<Keyed<Digest>>, j: nat)
    requires DistinctKeys(ups) && j < |ups|
    ensures var k := ups[j].key; var m := Applied(cfg, now, cells, ups);
            k in m && m[k] == MergedInto(cfg, now, cells, k, ups[j].value)
  {
    hide MergedInto;
    var n := |ups| - 1;
    if j < n {
      AppliedAt(cfg, now, cells, ups[..n], j);
    } else {
      AppliedElsewhere(cfg, now, cells, ups[..n], ups[n].key);
      MergedIntoLocal(cfg, now, Applied(cfg, now, cells, ups[..n]), cells, ups[n].key, ups[n].value);
    }
  }

  /** Compacting and merging digest by digest is the key-by-key update. */
  lemma CompactionIsExact(cfg: Config, now: int, cells: map<Key, Cell>, acc: seq<Seen>, ups: seq<Keyed<Digest>>, index: map<Key, nat>)
    requires Compacted(acc, ups, index)
    ensures Applied(cfg, now, cells, ups) == Updated(cfg, now, cells, acc)
  {
    hide Applied, MergedInto, OfKey, DigestOf, Sum, KeysOf;
    var m, u := Applied(cfg, now, cells, ups), Updated(cfg, now, cells, acc);
    forall k
      ensures k in m <==> k in u
      ensures k in m ==> m[k] == u[k]
    {
      OfKeyEmptyIff(acc, k);
      if k in index {
        AppliedAt(cfg, now, cells, ups, index[k]);
        assert Contents(ups, index)[k] == ups[index[k]].value;
      } else {
        AppliedElsewhere(cfg, now, cells, ups, k);
      }
    }
  }

  lemma CompactedCount(acc: seq<Seen>, ups: seq<Keyed<Digest>>, index: map<Key, nat>)
    requires Compacted(acc, ups, index)
    ensures |ups| == |KeysOf(acc)| && index.Keys == KeysOf(acc)
    ensures forall i :: 0 <= i < |ups| ==> DigestSize(ups[i].value) >= 1
  {
    hide OfKey, DigestOf, Sum, KeysOf;
    forall k ensures k in index <==> k in KeysOf(acc) {
      OfKeyEmptyIff(acc, k);
    }
    assert index.Keys == KeysOf(acc);
    IndexSize(ups, index);
    forall i | 0 <= i < |ups| ensures DigestSize(ups[i].value) >= 1 {
      var k := ups[i].key;
      assert Contents(ups, index)[k] == ups[i].value;
      DigestMeans(OfKey(acc, k));
    }
  }

  lemma MergedSizes(cfg: Config, now: int, c: Cell, d: Digest)
    requires DigestSize(d) >= 1
    ensures CellSize(Merged(cfg, now, c, d)) == CellSize(c) + DigestSize(d)
    ensures CellDuplicates(Merged(cfg, now, c, d)) + 1 == CellDuplicates(c) + DigestSize(d)
  {
    hide ClampScore, Times, Max, Min;
  }

  // ---------------------------------------------------------------- the map

  /** Everything ever accepted names one frame, or none. */
  ghost predicate OneFrame(h: History, frame: string) {
    forall s :: s in Everything(h) ==> Compatible(s.item, frame)
  }

  datatype Summary = Summary(frame: string, raw: nat, accepted: nat, compacted: nat, duplicates: nat, dropped: nat,
                             added: nat, updated: nat, updates: nat, observed: nat, occupied: nat, free: nat)

  const NO_SUMMARY := Summary("", 0, 0, 0, 0, 0, 0, 0, 0, 0, 0, 0)

  /** The rate times the seconds since the last update; nothing without a rate. */
  function Fading(cfg: Config, hasLast: bool, last: int, now: int): real {
    var elapsed := if hasLast && now > last then (now - last) as real / 1000000000.0 else 0.0;
    if cfg.decayPerSecond > 0.0 then cfg.decayPerSecond * elapsed else 0.0
  }

  /** Every cell has its full account; nothing accepted since the last reset is lost, doubled or
      counted elsewhere; and only one map frame was ever accepted. */
  ghost predicate Conserved(cfg: Config, cells: seq<Keyed<Cell>>, index: map<Key, nat>, h: History, frame: string)
    requires IndexOk(cells, index)
  {
    && Sane(cfg)
    && Books(cfg, Contents(cells, index), h)
    && Sum(cells, CellSize) == |Everything(h)|
    && Sum(cells, CellDuplicates) + Compactions(h) == |Everything(h)|
    && OneFrame(h, frame)
  }

  lemma ConservedParts(cfg: Config, cells: seq<Keyed<Cell>>, index: map<Key, nat>, h: History, frame: string)
    requires IndexOk(cells, index) && Conserved(cfg, cells, index, h, frame)
    ensures Sane(cfg) && Books(cfg, Contents(cells, index), h) && OneFrame(h, frame)
  {}

  lemma StartConserved(cfg: Config)
    requires Sane(cfg)
    ensures IndexOk<Cell>([], map[]) && Contents<Cell>([], map[]) == map[] && Conserved(cfg, [], map[], [], "")
  {
    hide Books;
    EmptyBooks(cfg);
    assert Contents<Cell>([], map[]) == map[];
  }

  lemma FrameConserved(cfg: Config, cells: seq<Keyed<Cell>>, index: map<Key, nat>, h: History, frame: string, next: string)
    requires IndexOk(cells, index) && Conserved(cfg, cells, index, h, frame) && (frame == "" || frame == next)
    ensures Conserved(cfg, cells, index, h, next)
  {
    hide Books, Sum, IndexOk, Everything, Contents, OneFrame;
    FrameStaysLocked(h, frame, next);
  }

  lemma DecayConserved(cfg: Config, before: seq<Keyed<Cell>>, cells: seq<Keyed<Cell>>, index: map<Key, nat>, h: History, frame: string, a: real)
    requires IndexOk(before, index) && Conserved(cfg, before, index, h, frame) && (cfg.decayPerSecond <= 0.0 ==> a <= 0.0)
    requires |cells| == |before| && forall j :: 0 <= j < |cells| ==> cells[j] == Keyed(before[j].key, Decayed(cfg, before[j].value, a))
    ensures IndexOk(cells, index) && Contents(cells, index) == Aged(cfg, Contents(before, index), a)
    ensures Conserved(cfg, cells, index, h, frame)
  {
    hide Books, Sum, Everything, Decayed, OneFrame;
    assert Contents(cells, index) == Aged(cfg, Contents(before, index), a);
    DecayKeepsBooks(cfg, Contents(before, index), h, a);
    forall i | 0 <= i < |cells|
      ensures CellSize(cells[i].value) == CellSize(before[i].value)
      ensures CellDuplicates(cells[i].value) == CellDuplicates(before[i].value)
    {
      DecayKeepsCounts(cfg, before[i].value, a);
    }
    SumPointwise(cells, before, CellSize);
    SumPointwise(cells, before, CellDuplicates);
  }

  lemma MergeConserved(cfg: Config, now: int, before: seq<Keyed<Cell>>, index: map<Key, nat>, cells: seq<Keyed<Cell>>, index': map<Key, nat>,
                       h: History, frame: string, items: seq<Evidence>, next: string, acc: seq<Seen>)
    requires IndexOk(before, index) && Conserved(cfg, before, index, h, frame) && IndexOk(cells, index')
    requires next == LockedFrame(frame, items) && acc == Accepted(cfg, items, next)
    requires Contents(cells, index') == Updated(cfg, now, Contents(before, index), acc)
    requires Sum(cells, CellSize) == Sum(before, CellSize) + |acc|
    requires Sum(cells, CellDuplicates) + |KeysOf(acc)| == Sum(before, CellDuplicates) + |acc|
    ensures Conserved(cfg, cells, index', h + [Batch(now, acc)], next)
    ensures index'.Keys == index.Keys + KeysOf(acc)
  {
    hide Books, Sum, Everything, OneFrame, IndexOk, Contents, Updated, LockedFrame, Accepted, KeysOf, Sane, Compactions;
    BatchKeepsOneFrame(cfg, now, h, frame, items, next, acc);
    UpdateKeepsBooks(cfg, now, Contents(before, index), h, acc);
    EverythingPush(h, Batch(now, acc));
    KeysOfContents(before, index);
    KeysOfContents(cells, index');
    UpdatedKeys(cfg, now, Contents(before, index), acc);
  }

  class MissionLocalObstacleMap {
    const cfg: Config
    var cells: seq<Keyed<Cell>>
    var index: map<Key, nat>
    var summary: Summary
    var touched: set<Key>
    var hasLast: bool
    var last: int
    ghost var history: History

    ghost function Live(): map<Key, Cell>
      reads this
      requires IndexOk(cells, index)
    {
      Contents(cells, index)
    }

    ghost predicate Valid()
      reads this
    {
      && IndexOk(cells, index)
      && Conserved(cfg, cells, index, history, summary.frame)
      && touched <= index.Keys
    }

    constructor (config: Config)
      ensures Valid() && history == [] && Live() == map[]
      ensures Sane(config) ==> cfg == config
      ensures cfg == config.(cellSize := cfg.cellSize, verticalCellSize := cfg.verticalCellSize)
      ensures config.cellSize <= 0.0 ==> cfg.cellSize == 0.5
      ensures config.verticalCellSize <= 0.0 ==> cfg.verticalCellSize == cfg.cellSize
    {
      hide Conserved, IndexOk, Contents;
      var xy := if config.cellSize > 0.0 then config.cellSize else 0.5;
      cfg := config.(cellSize := xy, verticalCellSize := if config.verticalCellSize > 0.0 then config.verticalCellSize else xy);
      cells, index, summary, touched := [], map[], NO_SUMMARY, {};
      hasLast, last, history := false, 0, [];
      new;
      StartConserved(cfg);
    }

    method Reset()
      requires Valid()
      modifies this
      ensures Valid() && history == [] && Live() == map[] && touched == {} && summary == NO_SUMMARY && !hasLast
    {
      hide Conserved, IndexOk, Contents;
      SaneConfig();
      StartConserved(cfg);
      cells, index, summary, touched := [], map[], NO_SUMMARY, {};
      hasLast, last, history := false, 0, [];
    }

    lemma SaneConfig()
      requires Valid()
      ensures Sane(cfg)
    {
      ConservedParts(cfg, cells, index, history, summary.frame);
    }

    /** Decay since the last update. */
    function Decay(now: int): real
      reads this
    {
      if !hasLast || cfg.decayPerSecond <= 0.0 || now <= last then 0.0
      else Times(cfg.decayPerSecond, (now - last) as real / 1000000000.0)
    }

    lemma DecayIs(now: int)
      ensures Decay(now) == Fading(cfg, hasLast, last, now) >= 0.0
    {
      if now > last {
        TimesSign(cfg.decayPerSecond, (now - last) as real / 1000000000.0);
      }
    }

    method DecayTo(now: int)
      requires Valid()
      modifies `cells
      ensures Valid() && Live() == Aged(cfg, old(Live()), old(Decay(now))) && |cells| == old(|cells|)
    {
      hide Conserved, Contents, IndexOk, Decayed, Decay, Aged;
      var decay := Decay(now);
      DecayIs(now);
      ghost var cells0 := cells;
      for i := 0 to |cells|
        invariant |cells| == |cells0|
        invariant forall j :: 0 <= j < i ==> cells[j] == Keyed(cells0[j].key, Decayed(cfg, cells0[j].value, decay))
        invariant forall j :: i <= j < |cells| ==> cells[j] == cells0[j]
      {
        cells := cells[i := Keyed(cells[i].key, Decayed(cfg, cells[i].value, decay))];
      }
      DecayConserved(cfg, cells0, cells, index, history, summary.frame, decay);
    }

    /** Filters a batch by finiteness and frame and compacts it per key. */
    method Compact(items: seq<Evidence>) returns (ghost acc: seq<Seen>, ups: seq<Keyed<Digest>>, ghost slots: map<Key, nat>)
      requires Sane(cfg)
      modifies `summary
      ensures summary == old(summary).(frame := LockedFrame(old(summary.frame), items), accepted := old(summary.accepted) + |acc|)
      ensures acc == Accepted(cfg, items, summary.frame)
      ensures Compacted(acc, ups, slots)
    {
      hide Compacted, KeyOf, Absorb, Opened;
      acc, ups := [], [];
      var slot: map<Key, nat> := map[];
      EmptyIsCompacted();
      for i := 0 to |items|
        invariant summary == old(summary).(frame := LockedFrame(old(summary.frame), items[..i]), accepted := old(summary.accepted) + |acc|)
        invariant acc == Accepted(cfg, items[..i], summary.frame)
        invariant Compacted(acc, ups, slot)
      {
        assert items[..i + 1][..i] == items[..i];
        var e := items[i];
        if !e.finite {
          continue;
        }
        if summary.frame == "" && e.frame != "" {
          summary := summary.(frame := e.frame);
        }
        LockingIsRetroactive(cfg, old(summary.frame), items[..i], summary.frame);
        if e.frame != "" && summary.frame != "" && e.frame != summary.frame {
          continue;
        }
        summary := summary.(accepted := summary.accepted + 1);
        var s := Seen(KeyOf(e.centre, cfg.cellSize, cfg.verticalCellSize), e);
        SlotInRange(acc, ups, slot, s.key);
        if s.key !in slot {
          FirstOfKey(acc, s, ups, slot);
          slot := slot[s.key := |ups|];
          ups := ups + [Keyed(s.key, Absorb(Opened(e), e))];
        } else {
          MoreOfKey(acc, s, ups, slot);
          ups := ups[slot[s.key] := Keyed(s.key, Absorb(ups[slot[s.key]].value, e))];
        }
        acc := acc + [s];
      }
      assert items[..|items|] == items;
      slots := slot;
    }

    method MergeOne(now: int, k: Key, d: Digest) returns (added: bool)
      requires IndexOk(cells, index) && DigestSize(d) >= 1
      modifies `cells, `index
      ensures IndexOk(cells, index)
      ensures Live() == old(Live())[k := MergedInto(cfg, now, old(Live()), k, d)]
      ensures Sum(cells, CellSize) == old(Sum(cells, CellSize)) + DigestSize(d)
      ensures Sum(cells, CellDuplicates) + 1 == old(Sum(cells, CellDuplicates)) + DigestSize(d)
      ensures |cells| == old(|cells|) + (if added then 1 else 0)
      ensures added == (k !in old(Live()))
    {
      hide IndexOk, Contents, Merged, NewCell, Sum, CellSize, CellDuplicates, DigestSize;
      KeysOfContents(cells, index);
      added := k !in index;
      var base := NewCell(cfg, k, now, d.minZ, d.maxZ);
      if added {
        PushPuts(cells, index, k, base);
        SumPush(cells, k, base, CellSize);
        SumPush(cells, k, base, CellDuplicates);
        NewCellIsEmpty(cfg, k, now, d.minZ, d.maxZ);
        index := index[k := |cells|];
        cells := cells + [Keyed(k, base)];
        KeysOfContents(cells, index);
      }
      var i := index[k];
      var c := Merged(cfg, now, cells[i].value, d);
      MergedSizes(cfg, now, cells[i].value, d);
      RewritePuts(cells, index, k, c);
      SumRewrite(cells, i, Keyed(k, c), CellSize);
      SumRewrite(cells, i, Keyed(k, c), CellDuplicates);
      cells := cells[i := Keyed(k, c)];
    }

    method MergeAll(now: int, ups: seq<Keyed<Digest>>)
      requires IndexOk(cells, index)
      requires forall i :: 0 <= i < |ups| ==> DigestSize(ups[i].value) >= 1
      modifies `cells, `index, `summary, `touched
      ensures IndexOk(cells, index)
      ensures Live() == Applied(cfg, now, old(Live()), ups)
      ensures Sum(cells, CellSize) == old(Sum(cells, CellSize)) + Sum(ups, DigestSize)
      ensures Sum(cells, CellDuplicates) + |ups| == old(Sum(cells, CellDuplicates)) + Sum(ups, DigestSize)
      ensures touched == old(touched) + set u | u in ups :: u.key
      ensures old(|cells|) <= |cells| <= old(|cells|) + |ups|
      ensures summary == old(summary).(added := old(summary.added) + (|cells| - old(|cells|)),
                                       updated := old(summary.updated) + (|ups| - (|cells| - old(|cells|))))
    {
      hide IndexOk, Contents, MergedInto, Sum, CellSize, CellDuplicates, DigestSize;
      SumNone(ups, DigestSize);
      for i := 0 to |ups|
        invariant IndexOk(cells, index)
        invariant Live() == Applied(cfg, now, old(Live()), ups[..i])
        invariant Sum(cells, CellSize) == old(Sum(cells, CellSize)) + Sum(ups[..i], DigestSize)
        invariant Sum(cells, CellDuplicates) + i == old(Sum(cells, CellDuplicates)) + Sum(ups[..i], DigestSize)
        invariant touched == old(touched) + set u | u in ups[..i] :: u.key
        invariant old(|cells|) <= |cells| <= old(|cells|) + i
        invariant summary == old(summary).(added := old(summary.added) + (|cells| - old(|cells|)),
                                           updated := old(summary.updated) + (i - (|cells| - old(|cells|))))
      {
        assert ups[..i + 1] == ups[..i] + [ups[i]];
        SumNext(ups, i, DigestSize);
        touched := touched + {ups[i].key};
        var added := MergeOne(now, ups[i].key, ups[i].value);
        if added {
          summary := summary.(added := summary.added + 1);
        } else {
          summary := summary.(updated := summary.updated + 1);
        }
      }
      assert ups[..|ups|] == ups;
    }

    method RefreshSummary()
      requires forall i :: 0 <= i < |cells| ==> cells[i].value.observed
      modifies `summary
      ensures summary == old(summary).(observed := |cells|, occupied := Sum(cells, OccupiedOne), free := Sum(cells, FreeOne))
    {
      hide Sum, OccupiedOne, FreeOne;
      var observed, occupied, free := 0, 0, 0;
      SumNone(cells, OccupiedOne);
      SumNone(cells, FreeOne);
      for i := 0 to |cells|
        invariant summary == old(summary)
        invariant observed == i && occupied == Sum(cells[..i], OccupiedOne) && free == Sum(cells[..i], FreeOne)
      {
        SumNext(cells, i, OccupiedOne);
        SumNext(cells, i, FreeOne);
        FlagWeights(cells[i].value);
        var c := cells[i].value;
        observed := observed + (if c.observed then 1 else 0);
        occupied := occupied + (if c.occupied then 1 else 0);
        free := free + (if c.free then 1 else 0);
      }
      assert cells[..|cells|] == cells;
      summary := summary.(observed := observed, occupied := occupied, free := free);
    }

    /** Compacts a batch and merges the digests: everything an update does to the cells once they
        have decayed. */
    method MergeBatch(items: seq<Evidence>, now: int) returns (ghost acc: seq<Seen>)
      requires Valid() && summary.accepted == 0 && summary.duplicates == 0 && summary.added == 0 && summary.updated == 0
      modifies `cells, `index, `summary, `touched
      ensures IndexOk(cells, index)
      ensures acc == Accepted(cfg, items, summary.frame)
      ensures Live() == Updated(cfg, now, old(Live()), acc)
      ensures Sum(cells, CellSize) == old(Sum(cells, CellSize)) + |acc|
      ensures Sum(cells, CellDuplicates) + |KeysOf(acc)| == old(Sum(cells, CellDuplicates)) + |acc|
      ensures touched == old(touched) + KeysOf(acc)
      ensures old(|cells|) <= |cells| <= old(|cells|) + |KeysOf(acc)| <= old(|cells|) + |acc|
      ensures summary == old(summary).(frame := LockedFrame(old(summary.frame), items), accepted := |acc|, compacted := |KeysOf(acc)|,
                                       duplicates := |acc| - |KeysOf(acc)|, added := |cells| - old(|cells|),
                                       updated := |KeysOf(acc)| - (|cells| - old(|cells|)))
    {
      hide Conserved, Sum, Compacted, Updated, Applied, LockedFrame, Accepted, KeysOf, IndexOk,
           Contents, CellSize, DigestSize, CellDuplicates;
      SaneConfig();
      var ups;
      ghost var slots;
      acc, ups, slots := Compact(items);
      CompactedCount(acc, ups, slots);
      CompactedWhole(acc, ups, slots);
      CompactedKeys(acc, ups, slots);
      KeysAtMost(acc);
      summary := summary.(compacted := |ups|);
      if summary.accepted > summary.compacted {
        summary := summary.(duplicates := summary.accepted - summary.compacted);
      }
      ghost var live := Live();
      MergeAll(now, ups);
      CompactionIsExact(cfg, now, live, acc, ups, slots);
    }

    /** The same step with its accounting: the invariants hold again for the longer history. */
    method Ingest(items: seq<Evidence>, now: int) returns (ghost acc: seq<Seen>)
      requires Valid() && summary.accepted == 0 && summary.duplicates == 0 && summary.added == 0 && summary.updated == 0
      modifies `cells, `index, `summary, `touched, `history
      ensures Valid()
      ensures acc == Accepted(cfg, items, summary.frame) && history == old(history) + [Batch(now, acc)]
      ensures Live() == Updated(cfg, now, old(Live()), acc)
      ensures touched == old(touched) + KeysOf(acc)
      ensures old(|cells|) <= |cells| <= old(|cells|) + |KeysOf(acc)| <= old(|cells|) + |acc|
      ensures summary == old(summary).(frame := LockedFrame(old(summary.frame), items), accepted := |acc|, compacted := |KeysOf(acc)|,
                                       duplicates := |acc| - |KeysOf(acc)|, added := |cells| - old(|cells|),
                                       updated := |KeysOf(acc)| - (|cells| - old(|cells|)))
    {
      hide Conserved, Sum, Updated, LockedFrame, Accepted, KeysOf, IndexOk, Contents, CellSize, CellDuplicates;
      ghost var before, slots, frame := cells, index, summary.frame;
      acc := MergeBatch(items, now);
      MergeConserved(cfg, now, before, slots, cells, index, history, frame, items, summary.frame, acc);
      history := history + [Batch(now, acc)];
    }

    /** Decay, filter, compact, merge: an update without its closing summary. */
    method Accumulate(evidence: seq<Evidence>, now: int, fallback: string) returns (ghost acc: seq<Seen>)
      requires Valid()
      modifies `cells, `index, `summary, `touched, `history
      ensures Valid()
      ensures var items := evidence[..Limit(cfg, evidence)];
              && summary.frame == LockedFrame(if old(summary.frame) == "" then fallback else old(summary.frame), items)
              && acc == Accepted(cfg, items, summary.frame)
      ensures history == old(history) + [Batch(now, acc)]
      ensures Live() == Updated(cfg, now, Aged(cfg, old(Live()), old(Decay(now))), acc)
      ensures touched == old(touched) + KeysOf(acc)
      ensures old(|cells|) <= |cells| <= old(|cells|) + |KeysOf(acc)| <= old(|cells|) + |acc|
      ensures summary == Summary(summary.frame, |evidence|, |acc|, |KeysOf(acc)|, |acc| - |KeysOf(acc)|, |evidence| - Limit(cfg, evidence),
                                 |cells| - old(|cells|), |KeysOf(acc)| - (|cells| - old(|cells|)), old(summary.updates),
                                 old(summary.observed), old(summary.occupied), old(summary.free))
    {
      hide Conserved, Updated, LockedFrame, Accepted, KeysOf, IndexOk, Contents, Decay, Aged;
      DecayTo(now);
      ghost var start := if summary.frame == "" then fallback else summary.frame;
      FrameConserved(cfg, cells, index, history, summary.frame, start);
      SaneConfig();
      if summary.frame == "" && fallback != "" {
        summary := summary.(frame := fallback);
      }
      var limit := Limit(cfg, evidence);
      summary := summary.(raw := |evidence|, accepted := 0, compacted := 0, duplicates := 0, dropped := |evidence| - limit, added := 0, updated := 0);
      acc := Ingest(evidence[..limit], now);
    }

    /** One update: decay, filter, compact, merge.  The map follows the key-by-key definition, and
        the counters of the summary balance. */
    method Update(evidence: seq<Evidence>, now: int, fallback: string)
      requires Valid()
      modifies this
      ensures Valid() && hasLast && last == now
      ensures var items := evidence[..Limit(cfg, evidence)];
              var start := if old(summary.frame) == "" then fallback else old(summary.frame);
              var acc := Accepted(cfg, items, summary.frame);
              && summary.frame == LockedFrame(start, items)
              && history == old(history) + [Batch(now, acc)]
              && Live() == Updated(cfg, now, Aged(cfg, old(Live()), old(Decay(now))), acc)
              && touched == old(touched) + KeysOf(acc)
              && summary.raw == |evidence| && summary.dropped == |evidence| - |items|
              && summary.accepted == |acc| && summary.compacted == |KeysOf(acc)|
              && summary.duplicates == summary.accepted - summary.compacted
              && summary.added + summary.updated == summary.compacted
              && summary.added == |cells| - old(|cells|)
      ensures OthersFade(cfg, old(Live()), Live(), Accepted(cfg, evidence[..Limit(cfg, evidence)], summary.frame),
                         Fading(cfg, old(hasLast), old(last), now))
      ensures summary.dropped == if |evidence| > cfg.maxEvidence then |evidence| - cfg.maxEvidence else 0
      ensures summary.updates == old(summary.updates) + 1
      ensures summary.observed == |cells| && summary.occupied == Sum(cells, OccupiedOne) && summary.free == Sum(cells, FreeOne)
    {
      hide Conserved, Sum, Updated, LockedFrame, Accepted, KeysOf, IndexOk, Contents,
           OccupiedOne, FreeOne, OthersFade, Decay, Aged, Fading;
      SaneConfig();
      ghost var live, before, decay := Live(), history, Decay(now);
      ConservedParts(cfg, cells, index, history, summary.frame);
      DecayIs(now);
      ghost var acc := Accumulate(evidence, now, fallback);
      summary := summary.(updates := summary.updates + 1);
      last, hasLast := now, true;
      ConservedParts(cfg, cells, index, history, summary.frame);
      AllObserved(cfg, cells, index, history);
      SilentCellsFade(cfg, now, live, before, acc, decay);
      RefreshSummary();
    }

    /** The cells touched since the last drain, each once. */
    method DrainDelta() returns (drained: seq<Keyed<Cell>>)
      requires Valid()
      modifies `touched
      ensures Valid() && touched == {}
      ensures IsDrain(cells, old(touched), drained)
    {
      hide Conserved, IndexOk, Contents, IsDrain;
      drained := Collect(cells, index, touched);
      touched := {};
    }
  }

  /** Exactly the cells of these keys, each once. */
  ghost predicate IsDrain(cells: seq<Keyed<Cell>>, keys: set<Key>, drained: seq<Keyed<Cell>>) {
    && |drained| == |keys|
    && (forall d :: d in drained ==> d.key in keys && d in cells)
    && (forall k :: k in keys ==> exists d :: d in drained && d.key == k)
  }

  method Collect(cells: seq<Keyed<Cell>>, index: map<Key, nat>, keys: set<Key>) returns (drained: seq<Keyed<Cell>>)
    requires IndexOk(cells, index) && keys <= index.Keys
    ensures IsDrain(cells, keys, drained)
  {
    drained := [];
    var left := keys;
    while left != {}
      invariant left <= keys && |drained| + |left| == |keys|
      invariant forall d :: d in drained ==> d.key in keys && d in cells
      invariant forall k :: k in keys ==> k in left || exists d :: d in drained && d.key == k
    {
      var k :| k in left;
      var d := cells[index[k]];
      assert d in cells;
      ghost var before := drained;
      drained := drained + [d];
      assert d in drained && forall e :: e in before ==> e in drained;
      left := left - {k};
    }
  }

  lemma FrameStaysLocked(h: History, frame: string, next: string)
    requires (frame == "" || frame == next) && OneFrame(h, frame)
    ensures OneFrame(h, next)
  {
    hide Everything;
  }

  /** A batch never mixes a second frame into the map. */
  lemma BatchKeepsOneFrame(cfg: Config, now: int, h: History, frame: string, items: seq<Evidence>, next: string, acc: seq<Seen>)
    requires Sane(cfg) && OneFrame(h, frame) && next == LockedFrame(frame, items) && acc == Accepted(cfg, items, next)
    ensures OneFrame(h + [Batch(now, acc)], next)
  {
    hide Everything, Accepted, LockedFrame, Compatible;
    LockedForGood(frame, items);
    FrameStaysLocked(h, frame, next);
    EverythingPush(h, Batch(now, acc));
    AcceptedCompatible(cfg, items, next);
  }

  lemma {:induction false} LockedForGood(frame: string, items: seq<Evidence>)
    ensures frame == "" || LockedFrame(frame, items) == frame
  {
    if items != [] {
      LockedForGood(frame, items[..|items| - 1]);
    }
  }

  lemma {:induction false} AcceptedCompatible(cfg: Config, items: seq<Evidence>, frame: string)
    requires Sane(cfg)
    ensures forall s :: s in Accepted(cfg, items, frame) ==> Compatible(s.item, frame)
  {
    hide KeyOf;
    if items != [] {
      AcceptedCompatible(cfg, items[..|items| - 1], frame);
    }
  }

  lemma {:induction false} KeysAtMost(acc: seq<Seen>)
    ensures |KeysOf(acc)| <= |acc|
  {
    if acc != [] {
      var n := |acc| - 1;
      KeysAtMost(acc[..n]);
      assert acc == acc[..n] + [acc[n]];
      assert KeysOf(acc) == KeysOf(acc[..n]) + {acc[n].key};
    }
  }

  lemma AllObserved(cfg: Config, cells: seq<Keyed<Cell>>, index: map<Key, nat>, h: History)
    requires IndexOk(cells, index) && Books(cfg, Contents(cells, index), h)
    ensures forall i :: 0 <= i < |cells| ==> cells[i].value.observed
  {
    hide OfKey, Everything, CountOf, Scored, CentreOf, Visits, Remembered;
    forall i | 0 <= i < |cells| ensures cells[i].value.observed {
      assert Accounts(cfg, cells[i].key, Contents(cells, index)[cells[i].key], h);
    }
  }

  lemma UpdatedKeys(cfg: Config, now: int, cells: map<Key, Cell>, acc: seq<Seen>)
    ensures Updated(cfg, now, cells, acc).Keys == cells.Keys + KeysOf(acc)
  {
    hide OfKey, DigestOf, KeysOf, MergedInto;
  }

  lemma DecayKeepsCounts(cfg: Config, c: Cell, decay: real)
    ensures CellSize(Decayed(cfg, c, decay)) == CellSize(c)
    ensures CellDuplicates(Decayed(cfg, c, decay)) == CellDuplicates(c)
  {}

  lemma EmptyIsCompacted()
    ensures Compacted([], [], map[])
  {}

  lemma SlotInRange(acc: seq<Seen>, ups: seq<Keyed<Digest>>, index: map<Key, nat>, k: Key)
    requires Compacted(acc, ups, index)
    ensures k in index ==> index[k] < |ups|
  {}

  lemma NewCellIsEmpty(cfg: Config, k: Key, now: int, lo: real, hi: real)
    ensures CellSize(NewCell(cfg, k, now, lo, hi)) == 0
    ensures CellDuplicates(NewCell(cfg, k, now, lo, hi)) == 0
  {}

  lemma FlagWeights(c: Cell)
    ensures OccupiedOne(c) == (if c.occupied then 1 else 0)
    ensures FreeOne(c) == (if c.free then 1 else 0)
  {}

  lemma CompactedWhole(acc: seq<Seen>, ups: seq<Keyed<Digest>>, index: map<Key, nat>)
    requires Compacted(acc, ups, index)
    ensures Sum(ups, DigestSize) == |acc|
  {}

  lemma CompactedKeys(acc: seq<Seen>, ups: seq<Keyed<Digest>>, index: map<Key, nat>)
    requires Compacted(acc, ups, index)
    ensures (set u | u in ups :: u.key) == KeysOf(acc)
  {
    hide OfKey, DigestOf, Sum, KeysOf;
    CompactedCount(acc, ups, index);
    forall k | k in index ensures exists u :: u in ups && u.key == k {
      assert ups[index[k]] in ups;
    }
  }
}
