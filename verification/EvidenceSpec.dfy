/** What one batch of evidence means for the obstacle map, key by key. */
module EvidenceSpec {
  import opened Grid
  import opened KeyedVector

  /** `finite` says that no coordinate of the centre is infinite or not a number; a confidence
      that is not a finite number stands as 0. */
  datatype Evidence = Evidence(finite: bool, centre: Vec3, frame: string, occupied: bool, confidence: real, source: string)

  datatype Config = Config(cellSize: real, verticalCellSize: real, maxEvidence: nat, decayPerSecond: real,
                           maxScore: real, occupiedThreshold: real, freeThreshold: real, occupiedHit: real, freeHit: real)

  predicate Sane(cfg: Config) {
    cfg.cellSize > 0.0 && cfg.verticalCellSize > 0.0
  }

  /** An accepted item together with the key of its cell. */
  datatype Seen = Seen(key: Key, item: Evidence)

  function Limit(cfg: Config, evidence: seq<Evidence>): (n: nat)
    ensures n <= |evidence| && n <= cfg.maxEvidence
  {
    if |evidence| <= cfg.maxEvidence then |evidence| else cfg.maxEvidence
  }

  // ---------------------------------------------------------------- frame locking

  /** The frame the map is locked to: the first one named, by the map, or by a finite item. */
  function LockedFrame(frame: string, items: seq<Evidence>): string {
    if items == [] then frame
    else
      var f := LockedFrame(frame, items[..|items| - 1]);
      var e := items[|items| - 1];
      if f == "" && e.finite then e.frame else f
  }

  predicate Compatible(e: Evidence, frame: string) {
    e.finite && (e.frame == "" || e.frame == frame)
  }

  /** The items of a batch that are compatible with one frame, with their keys. */
  function Accepted(cfg: Config, items: seq<Evidence>, frame: string): seq<Seen>
    requires Sane(cfg)
  {
    if items == [] then []
    else
      var e := items[|items| - 1];
      Accepted(cfg, items[..|items| - 1], frame) +
      (if Compatible(e, frame) then [Seen(KeyOf(e.centre, cfg.cellSize, cfg.verticalCellSize), e)] else [])
  }

  lemma {:induction false} UnlockedAcceptsUnnamed(cfg: Config, items: seq<Evidence>, frame: string)
    requires Sane(cfg) && LockedFrame("", items) == ""
    ensures Accepted(cfg, items, frame) == Accepted(cfg, items, "")
  {
    hide KeyOf;
    if items != [] {
      UnlockedAcceptsUnnamed(cfg, items[..|items| - 1], frame);
    }
  }

  /** What was accepted before the frame was known is what the final frame would accept. */
  lemma {:induction false} LockingIsRetroactive(cfg: Config, frame: string, items: seq<Evidence>, next: string)
    requires Sane(cfg)
    requires var f := LockedFrame(frame, items); f == "" || f == next
    ensures Accepted(cfg, items, next) == Accepted(cfg, items, LockedFrame(frame, items))
  {
    hide KeyOf, Accepted;
    if LockedFrame(frame, items) == "" {
      NeverLocked(frame, items);
      UnlockedAcceptsUnnamed(cfg, items, next);
    }
  }

  lemma {:induction false} NeverLocked(frame: string, items: seq<Evidence>)
    requires LockedFrame(frame, items) == ""
    ensures frame == ""
  {
    if items != [] {
      NeverLocked(frame, items[..|items| - 1]);
    }
  }

  /** The frame is locked by the first name: the map's own, or that of the first finite item that has
      one; nothing after that changes it. */
  lemma {:induction false} FirstNameLocks(frame: string, items: seq<Evidence>)
    ensures frame != "" ==> LockedFrame(frame, items) == frame
    ensures frame == "" && LockedFrame(frame, items) == "" ==> forall i :: 0 <= i < |items| && items[i].finite ==> items[i].frame == ""
    ensures frame == "" && LockedFrame(frame, items) != "" ==>
              exists i :: && 0 <= i < |items| && items[i].finite && items[i].frame == LockedFrame(frame, items)
                          && forall j :: 0 <= j < i && items[j].finite ==> items[j].frame == ""
  {
    if items != [] {
      var n := |items| - 1;
      var before := items[..n];
      FirstNameLocks(frame, before);
      assert forall j :: 0 <= j < n ==> before[j] == items[j];
      if frame == "" && LockedFrame(frame, before) != "" {
        var i :| && 0 <= i < n && before[i].finite && before[i].frame == LockedFrame(frame, before)
                 && forall j :: 0 <= j < i && before[j].finite ==> before[j].frame == "";
        assert items[i] == before[i];
      } else if frame == "" && LockedFrame(frame, items) != "" {
        assert items[n].finite && items[n].frame == LockedFrame(frame, items);
      }
    }
  }

  /** Exactly the finite items without a frame or with the locked one are accepted, under the key of
      the voxel that holds them. */
  lemma {:induction false} AcceptedMembers(cfg: Config, items: seq<Evidence>, frame: string, s: Seen)
    requires Sane(cfg)
    ensures s in Accepted(cfg, items, frame) <==>
            exists i :: && 0 <= i < |items| && items[i] == s.item && items[i].finite && (items[i].frame == "" || items[i].frame == frame)
                        && s.key == KeyOf(items[i].centre, cfg.cellSize, cfg.verticalCellSize)
    ensures |Accepted(cfg, items, frame)| <= |items|
  {
    hide KeyOf;
    if items != [] {
      AcceptedMembers(cfg, items[..|items| - 1], frame, s);
    }
  }

  /** A batch whose items all fit is accepted whole. */
  lemma {:induction false} NothingDropped(cfg: Config, items: seq<Evidence>, frame: string)
    requires Sane(cfg) && forall i :: 0 <= i < |items| ==> items[i].finite && (items[i].frame == "" || items[i].frame == frame)
    ensures |Accepted(cfg, items, frame)| == |items|
    ensures forall i :: 0 <= i < |items| ==> Accepted(cfg, items, frame)[i].item == items[i]
  {
    hide KeyOf;
    if items != [] {
      NothingDropped(cfg, items[..|items| - 1], frame);
    }
  }

  // ---------------------------------------------------------------- digests

  /** The items of one key, in order. */
  function OfKey(acc: seq<Seen>, k: Key): seq<Evidence> {
    if acc == [] then []
    else OfKey(acc[..|acc| - 1], k) + (if acc[|acc| - 1].key == k then [acc[|acc| - 1].item] else [])
  }

  function KeysOf(acc: seq<Seen>): set<Key> {
    set s | s in acc :: s.key
  }

  lemma {:induction false} OfKeyEmptyIff(acc: seq<Seen>, k: Key)
    ensures OfKey(acc, k) != [] <==> k in KeysOf(acc)
  {
    if acc != [] {
      var n := |acc| - 1;
      OfKeyEmptyIff(acc[..n], k);
      assert acc == acc[..n] + [acc[n]];
    }
  }

  lemma {:induction false} OfKeyConcat(a: seq<Seen>, b: seq<Seen>, k: Key)
    ensures OfKey(a + b, k) == OfKey(a, k) + OfKey(b, k)
  {
    if b == [] {
      assert a + b == a;
    } else {
      assert (a + b)[..|a + b| - 1] == a + b[..|b| - 1];
      OfKeyConcat(a, b[..|b| - 1], k);
    }
  }

  function Confidence(e: Evidence): real {
    if e.confidence > 0.0 then e.confidence else 1.0
  }

  datatype Digest = Digest(item: Evidence, occupiedConfidence: real, freeConfidence: real,
                           positive: nat, negative: nat, minZ: real, maxZ: real)

  function Opened(e: Evidence): Digest {
    Digest(e, 0.0, 0.0, 0, 0, e.centre.z, e.centre.z)
  }

  function Absorb(d: Digest, e: Evidence): Digest {
    var c := Confidence(e);
    var u := d.(item := e, minZ := Min(d.minZ, e.centre.z), maxZ := Max(d.maxZ, e.centre.z));
    if e.occupied
    then u.(occupiedConfidence := Max(u.occupiedConfidence, c), positive := u.positive + 1)
    else u.(freeConfidence := Max(u.freeConfidence, c), negative := u.negative + 1)
  }

  function DigestOf(items: seq<Evidence>): Digest
    requires items != []
  {
    var n := |items| - 1;
    Absorb(if n == 0 then Opened(items[n]) else DigestOf(items[..n]), items[n])
  }

  function CountOf(items: seq<Evidence>, occupied: bool): nat {
    if items == [] then 0
    else CountOf(items[..|items| - 1], occupied) + (if items[|items| - 1].occupied == occupied then 1 else 0)
  }

  lemma {:induction false} CountConcat(a: seq<Evidence>, b: seq<Evidence>, occupied: bool)
    ensures CountOf(a + b, occupied) == CountOf(a, occupied) + CountOf(b, occupied)
  {
    if b == [] {
      assert a + b == a;
    } else {
      assert (a + b)[..|a + b| - 1] == a + b[..|b| - 1];
      CountConcat(a, b[..|b| - 1], occupied);
    }
  }

  lemma {:induction false} CountsAreAll(items: seq<Evidence>)
    ensures CountOf(items, true) + CountOf(items, false) == |items|
  {
    if items != [] {
      CountsAreAll(items[..|items| - 1]);
    }
  }

  /** The strongest confidence among the items of one polarity; 0 when there is none. */
  ghost predicate Strongest(items: seq<Evidence>, occupied: bool, c: real) {
    && (forall i :: 0 <= i < |items| && items[i].occupied == occupied ==> Confidence(items[i]) <= c)
    && (c == 0.0 || exists i :: 0 <= i < |items| && items[i].occupied == occupied && Confidence(items[i]) == c)
    && 0.0 <= c
  }

  ghost predicate Spans(items: seq<Evidence>, lo: real, hi: real) {
    && (forall i :: 0 <= i < |items| ==> lo <= items[i].centre.z <= hi)
    && (exists i :: 0 <= i < |items| && items[i].centre.z == lo)
    && (exists i :: 0 <= i < |items| && items[i].centre.z == hi)
  }

  lemma StrongestExtends(items: seq<Evidence>, e: Evidence, occupied: bool, c: real)
    requires Strongest(items, occupied, c)
    ensures Strongest(items + [e], occupied, if e.occupied == occupied then Max(c, Confidence(e)) else c)
  {
    var all := items + [e];
    assert all[|items|] == e;
    if c != 0.0 {
      var i :| 0 <= i < |items| && items[i].occupied == occupied && Confidence(items[i]) == c;
      assert all[i] == items[i];
    }
  }

  lemma SpansExtends(items: seq<Evidence>, e: Evidence, lo: real, hi: real)
    requires Spans(items, lo, hi)
    ensures Spans(items + [e], Min(lo, e.centre.z), Max(hi, e.centre.z))
  {
    var all := items + [e];
    var i :| 0 <= i < |items| && items[i].centre.z == lo;
    var j :| 0 <= j < |items| && items[j].centre.z == hi;
    assert all[i] == items[i] && all[j] == items[j] && all[|items|] == e;
  }

  /** A digest says what its items say together: counts, strongest confidences, height range. */
  lemma {:induction false} DigestMeans(items: seq<Evidence>)
    requires items != []
    ensures var d := DigestOf(items);
            && d.item == items[|items| - 1]
            && d.positive == CountOf(items, true) && d.negative == CountOf(items, false)
            && d.positive + d.negative == |items|
            && Strongest(items, true, d.occupiedConfidence) && Strongest(items, false, d.freeConfidence)
            && Spans(items, d.minZ, d.maxZ)
  {
    hide Strongest, Spans, Confidence, Max, Min;
    CountsAreAll(items);
    var n := |items| - 1;
    var e := items[n];
    assert items == items[..n] + [e];
    if n == 0 {
      SingleDigest(e);
      assert items[..n] == [] && items == [e];
    } else {
      var d := DigestOf(items[..n]);
      DigestMeans(items[..n]);
      StrongestExtends(items[..n], e, true, d.occupiedConfidence);
      StrongestExtends(items[..n], e, false, d.freeConfidence);
      SpansExtends(items[..n], e, d.minZ, d.maxZ);
    }
  }

  lemma SingleDigest(e: Evidence)
    ensures var d := Absorb(Opened(e), e);
            && Strongest([e], true, d.occupiedConfidence) && Strongest([e], false, d.freeConfidence)
            && Spans([e], d.minZ, d.maxZ)
            && d.positive == (if e.occupied then 1 else 0) && d.negative == (if e.occupied then 0 else 1)
  {
    assert [e][0] == e;
  }

  // ---------------------------------------------------------------- cells

  datatype Cell = Cell(centre: Vec3, observed: bool, firstObserved: int, lastObserved: int, lastOccupied: int, lastFree: int,
                       confidence: real, minZ: real, maxZ: real, source: string, positive: nat, negative: nat,
                       duplicates: nat, occupiedScore: real, freeScore: real, riskScore: real, occupied: bool, free: bool)

  function NewCell(cfg: Config, k: Key, now: int, minZ: real, maxZ: real): Cell {
    Cell(CentreOf(k, cfg.cellSize, cfg.verticalCellSize), false, now, 0, 0, 0,
         0.0, minZ, maxZ, "", 0, 0, 0, 0.0, 0.0, 0.0, false, false)
  }

  /** A digest merged into a cell. */
  function Merged(cfg: Config, now: int, c: Cell, d: Digest): Cell {
    var total := d.positive + d.negative;
    var occupiedScore := if d.positive > 0 then ClampScore(c.occupiedScore + Times(cfg.occupiedHit, d.occupiedConfidence), cfg.maxScore)
                         else c.occupiedScore;
    var freeScore := if d.negative > 0 then ClampScore(c.freeScore + Times(cfg.freeHit, d.freeConfidence), cfg.maxScore)
                     else c.freeScore;
    Cell(c.centre, true, c.firstObserved, now,
         if d.positive > 0 then now else c.lastOccupied, if d.negative > 0 then now else c.lastFree,
         Max(c.confidence, Max(d.occupiedConfidence, d.freeConfidence)), Min(c.minZ, d.minZ), Max(c.maxZ, d.maxZ),
         d.item.source, c.positive + d.positive, c.negative + d.negative,
         c.duplicates + (if total > 1 then total - 1 else 0),
         occupiedScore, freeScore, c.riskScore, occupiedScore >= cfg.occupiedThreshold, freeScore >= cfg.freeThreshold)
  }

  function Decayed(cfg: Config, c: Cell, decay: real): Cell {
    if decay <= 0.0 then c
    else
      var o, f := ClampScore(c.occupiedScore - decay, cfg.maxScore), ClampScore(c.freeScore - decay, cfg.maxScore);
      c.(occupiedScore := o, freeScore := f, riskScore := ClampScore(c.riskScore - decay, cfg.maxScore),
         occupied := o >= cfg.occupiedThreshold, free := f >= cfg.freeThreshold)
  }

  function MergedInto(cfg: Config, now: int, cells: map<Key, Cell>, k: Key, d: Digest): Cell {
    Merged(cfg, now, if k in cells then cells[k] else NewCell(cfg, k, now, d.minZ, d.maxZ), d)
  }

  /** One update, key by key: no vector, no index, no compaction. */
  ghost function Updated(cfg: Config, now: int, cells: map<Key, Cell>, acc: seq<Seen>): map<Key, Cell> {
    cells + map k | k in KeysOf(acc) ::
      OfKeyEmptyIff(acc, k); MergedInto(cfg, now, cells, k, DigestOf(OfKey(acc, k)))
  }

  // ---------------------------------------------------------------- history

  /** Scores are within [0, maximum] and the flags are the scores' threshold tests. */
  predicate Scored(cfg: Config, c: Cell) {
    var top := Max(0.0, cfg.maxScore);
    && 0.0 <= c.occupiedScore <= top && 0.0 <= c.freeScore <= top && c.riskScore == 0.0
    && (c.observed ==> c.occupied == (c.occupiedScore >= cfg.occupiedThreshold) && c.free == (c.freeScore >= cfg.freeThreshold))
  }

  lemma DecayKeepsScored(cfg: Config, c: Cell, decay: real)
    requires Scored(cfg, c)
    ensures Scored(cfg, Decayed(cfg, c, decay))
  {}

  lemma MergeScores(cfg: Config, now: int, c: Cell, d: Digest)
    requires Scored(cfg, c)
    ensures Scored(cfg, Merged(cfg, now, c, d))
  {
    hide Times;
  }

  /** The accepted items of one update, and its time. */
  datatype Batch = Batch(now: int, items: seq<Seen>)

  type History = seq<Batch>

  function Everything(h: History): seq<Seen> {
    if h == [] then [] else Everything(h[..|h| - 1]) + h[|h| - 1].items
  }

  /** Number of batches with evidence for a key. */
  function Visits(h: History, k: Key): nat {
    if h == [] then 0 else Visits(h[..|h| - 1], k) + (if k in KeysOf(h[|h| - 1].items) then 1 else 0)
  }

  /** Digests merged over all batches. */
  function Compactions(h: History): nat {
    if h == [] then 0 else Compactions(h[..|h| - 1]) + |KeysOf(h[|h| - 1].items)|
  }

  /** A cell's counters are the evidence ever accepted for its key. */
  ghost predicate Accounts(cfg: Config, k: Key, c: Cell, h: History) {
    var mine := OfKey(Everything(h), k);
    && c.observed && c.centre == CentreOf(k, cfg.cellSize, cfg.verticalCellSize)
    && c.positive == CountOf(mine, true) && c.negative == CountOf(mine, false)
    && c.duplicates + Visits(h, k) == c.positive + c.negative
    && Scored(cfg, c)
  }

  lemma EverythingPush(h: History, b: Batch)
    ensures Everything(h + [b]) == Everything(h) + b.items
    ensures Compactions(h + [b]) == Compactions(h) + |KeysOf(b.items)|
  {
    assert (h + [b])[..|h|] == h;
  }

  lemma VisitsPush(h: History, b: Batch, k: Key)
    ensures Visits(h + [b], k) == Visits(h, k) + (if k in KeysOf(b.items) then 1 else 0)
  {
    assert (h + [b])[..|h|] == h;
  }

  lemma {:induction false} UnseenMeansNoVisits(h: History, k: Key)
    requires OfKey(Everything(h), k) == []
    ensures Visits(h, k) == 0
  {
    if h != [] {
      var n := |h| - 1;
      OfKeyConcat(Everything(h[..n]), h[n].items, k);
      OfKeyEmptyIff(h[n].items, k);
      UnseenMeansNoVisits(h[..n], k);
    }
  }

  lemma AccountsAfterSilence(cfg: Config, now: int, k: Key, c: Cell, h: History, acc: seq<Seen>)
    requires Accounts(cfg, k, c, h) && k !in KeysOf(acc)
    ensures Accounts(cfg, k, c, h + [Batch(now, acc)])
  {
    hide OfKey, CountOf, Scored, CentreOf, Everything, Visits, KeysOf;
    EverythingPush(h, Batch(now, acc));
    VisitsPush(h, Batch(now, acc), k);
    OfKeyConcat(Everything(h), acc, k);
    OfKeyEmptyIff(acc, k);
    assert OfKey(Everything(h), k) + [] == OfKey(Everything(h), k);
  }

  lemma AccountsAfterMerge(cfg: Config, now: int, k: Key, c: Cell, h: History, acc: seq<Seen>)
    requires k in KeysOf(acc) && OfKey(acc, k) != []
    requires c.centre == CentreOf(k, cfg.cellSize, cfg.verticalCellSize) && Scored(cfg, c)
    requires c.positive == CountOf(OfKey(Everything(h), k), true) && c.negative == CountOf(OfKey(Everything(h), k), false)
    requires c.duplicates + Visits(h, k) == c.positive + c.negative
    ensures Accounts(cfg, k, Merged(cfg, now, c, DigestOf(OfKey(acc, k))), h + [Batch(now, acc)])
  {
    hide OfKey, CountOf, Scored, CentreOf, Everything, Visits, KeysOf, DigestOf, ClampScore, Times, Max, Min, Strongest, Spans;
    var mine := OfKey(acc, k);
    EverythingPush(h, Batch(now, acc));
    VisitsPush(h, Batch(now, acc), k);
    OfKeyConcat(Everything(h), acc, k);
    CountConcat(OfKey(Everything(h), k), mine, true);
    CountConcat(OfKey(Everything(h), k), mine, false);
    DigestMeans(mine);
    MergeScores(cfg, now, c, DigestOf(mine));
  }

  lemma NewCellScored(cfg: Config, k: Key, now: int, lo: real, hi: real)
    ensures Scored(cfg, NewCell(cfg, k, now, lo, hi))
  {}

  ghost predicate AllAccount(cfg: Config, cells: map<Key, Cell>, h: History) {
    && (forall k :: k in cells ==> Accounts(cfg, k, cells[k], h))
    && (forall k :: k in cells <==> OfKey(Everything(h), k) != [])
  }

  /** Every update keeps every counter equal to the evidence ever accepted for its key. */
  lemma UpdateAccounts(cfg: Config, now: int, cells: map<Key, Cell>, h: History, acc: seq<Seen>)
    requires AllAccount(cfg, cells, h)
    ensures AllAccount(cfg, Updated(cfg, now, cells, acc), h + [Batch(now, acc)])
  {
    hide OfKey, CountOf, Scored, CentreOf, Everything, Visits, KeysOf, DigestOf, Merged, NewCell, Accounts;
    var cells' := Updated(cfg, now, cells, acc);
    forall k ensures k in cells' <==> OfKey(Everything(h + [Batch(now, acc)]), k) != [] {
      EverythingPush(h, Batch(now, acc));
      OfKeyConcat(Everything(h), acc, k);
      OfKeyEmptyIff(acc, k);
    }
    forall k | k in cells' ensures Accounts(cfg, k, cells'[k], h + [Batch(now, acc)]) {
      OfKeyEmptyIff(acc, k);
      if k in KeysOf(acc) {
        AccountsAtTouchedKey(cfg, now, cells, h, acc, k);
      } else {
        AccountsAfterSilence(cfg, now, k, cells[k], h, acc);
      }
    }
  }

  lemma AccountsAtTouchedKey(cfg: Config, now: int, cells: map<Key, Cell>, h: History, acc: seq<Seen>, k: Key)
    requires AllAccount(cfg, cells, h) && k in KeysOf(acc) && OfKey(acc, k) != []
    ensures Accounts(cfg, k, MergedInto(cfg, now, cells, k, DigestOf(OfKey(acc, k))), h + [Batch(now, acc)])
  {
    hide OfKey, Scored, CentreOf, Everything, Visits, KeysOf, DigestOf, Merged;
    var d := DigestOf(OfKey(acc, k));
    if k in cells {
      assert Accounts(cfg, k, cells[k], h);
      AccountsAfterMerge(cfg, now, k, cells[k], h, acc);
    } else {
      UnseenMeansNoVisits(h, k);
      NewCellScored(cfg, k, now, d.minZ, d.maxZ);
      AccountsAfterMerge(cfg, now, k, NewCell(cfg, k, now, d.minZ, d.maxZ), h, acc);
    }
  }

  lemma DecayAccounts(cfg: Config, cells: map<Key, Cell>, h: History, decay: real)
    requires AllAccount(cfg, cells, h)
    ensures AllAccount(cfg, map k | k in cells :: Decayed(cfg, cells[k], decay), h)
  {
    hide OfKey, Scored, CentreOf, Everything, Visits, CountOf, ClampScore;
    forall k | k in cells ensures Accounts(cfg, k, Decayed(cfg, cells[k], decay), h) {
      assert Accounts(cfg, k, cells[k], h);
      DecayKeepsScored(cfg, cells[k], decay);
    }
  }
}
