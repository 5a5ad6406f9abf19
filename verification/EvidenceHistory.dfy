/** What an obstacle-map cell remembers of all the evidence ever accepted for it: confidence, height
    range, time stamps and -- as long as nothing decays -- its scores. */
module EvidenceHistory {
  import opened Grid
  import opened EvidenceSpec

  // ---------------------------------------------------------------- confidence and height

  /** c is the greatest confidence of these items, and 0 when there are none. */
  ghost predicate Peak(items: seq<Evidence>, c: real) {
    && (forall i :: 0 <= i < |items| ==> Confidence(items[i]) <= c)
    && (if items == [] then c == 0.0 else exists i :: 0 <= i < |items| && Confidence(items[i]) == c)
  }

  lemma PeakOfPolarities(items: seq<Evidence>, o: real, f: real)
    requires items != [] && Strongest(items, true, o) && Strongest(items, false, f)
    ensures Peak(items, Max(o, f))
  {
    hide Max;
    assert Max(o, f) == if o < f then f else o by { MaxIs(o, f); }
    var e := items[0];
    assert 0.0 < Confidence(e) <= Max(o, f);
    if o < f {
      var i :| 0 <= i < |items| && items[i].occupied == false && Confidence(items[i]) == f;
    } else {
      var i :| 0 <= i < |items| && items[i].occupied == true && Confidence(items[i]) == o;
    }
  }

  lemma MaxIs(a: real, b: real)
    ensures Max(a, b) == if a < b then b else a
  {}

  lemma PeakJoins(a: seq<Evidence>, b: seq<Evidence>, c: real, d: real)
    requires Peak(a, c) && Peak(b, d) && b != []
    ensures Peak(a + b, Max(c, d))
  {
    hide Confidence;
    var all := a + b;
    assert forall i :: 0 <= i < |all| ==> all[i] == if i < |a| then a[i] else b[i - |a|];
    var j :| 0 <= j < |b| && Confidence(b[j]) == d;
    assert all[|a| + j] == b[j];
    if a != [] {
      var i :| 0 <= i < |a| && Confidence(a[i]) == c;
      assert all[i] == a[i];
    } else {
      assert Confidence(b[j]) > 0.0 by { ConfidencePositive(b[j]); }
    }
  }

  lemma ConfidencePositive(e: Evidence)
    ensures Confidence(e) > 0.0
    ensures e.confidence > 0.0 ==> Confidence(e) == e.confidence
    ensures e.confidence <= 0.0 ==> Confidence(e) == 1.0
  {}

  lemma SpansJoins(a: seq<Evidence>, b: seq<Evidence>, lo: real, hi: real, lo': real, hi': real)
    requires Spans(a, lo, hi) && Spans(b, lo', hi')
    ensures Spans(a + b, Min(lo, lo'), Max(hi, hi'))
  {
    var all := a + b;
    assert forall i :: 0 <= i < |all| ==> all[i] == if i < |a| then a[i] else b[i - |a|];
    var i :| 0 <= i < |a| && a[i].centre.z == lo;
    var j :| 0 <= j < |a| && a[j].centre.z == hi;
    var i' :| 0 <= i' < |b| && b[i'].centre.z == lo';
    var j' :| 0 <= j' < |b| && b[j'].centre.z == hi';
    assert all[i] == a[i] && all[j] == a[j] && all[|a| + i'] == b[i'] && all[|a| + j'] == b[j'];
  }

  // ---------------------------------------------------------------- time stamps

  /** The batch has evidence for k; of this polarity, if one is given. */
  predicate Mentions(b: Batch, k: Key, occupied: bool) {
    CountOf(OfKey(b.items, k), occupied) > 0
  }

  /** Time of the first batch with evidence for k; 0 if there is none. */
  function FirstTime(h: History, k: Key): int {
    if h == [] then 0
    else if OfKey(Everything(h[..|h| - 1]), k) != [] then FirstTime(h[..|h| - 1], k)
    else if OfKey(h[|h| - 1].items, k) != [] then h[|h| - 1].now
    else 0
  }

  /** Time of the last batch with evidence for k. */
  function LastTime(h: History, k: Key): int {
    if h == [] then 0
    else if OfKey(h[|h| - 1].items, k) != [] then h[|h| - 1].now
    else LastTime(h[..|h| - 1], k)
  }

  /** Time of the last batch with evidence of one polarity for k. */
  function LastTimeOf(h: History, k: Key, occupied: bool): int {
    if h == [] then 0
    else if Mentions(h[|h| - 1], k, occupied) then h[|h| - 1].now
    else LastTimeOf(h[..|h| - 1], k, occupied)
  }

  // ---------------------------------------------------------------- scores

  /** The strongest confidence of one polarity; 0 when there is none. */
  function StrongestOf(items: seq<Evidence>, occupied: bool): real {
    if items == [] then 0.0
    else
      var r, e := StrongestOf(items[..|items| - 1], occupied), items[|items| - 1];
      if e.occupied == occupied then Max(r, Confidence(e)) else r
  }

  lemma {:induction false} StrongestIs(items: seq<Evidence>, occupied: bool)
    ensures Strongest(items, occupied, StrongestOf(items, occupied))
    ensures StrongestOf(items, occupied) > 0.0 <==> CountOf(items, occupied) > 0
  {
    hide Strongest, Max, Confidence;
    if items == [] {
      NoneStrongest(occupied);
    } else {
      var n := |items| - 1;
      StrongestIs(items[..n], occupied);
      StrongestExtends(items[..n], items[n], occupied, StrongestOf(items[..n], occupied));
      assert items == items[..n] + [items[n]];
      MaxIs(StrongestOf(items[..n], occupied), Confidence(items[n]));
      ConfidencePositive(items[n]);
      StrongestNonNegative(items[..n], occupied, StrongestOf(items[..n], occupied));
    }
  }

  lemma NoneStrongest(occupied: bool)
    ensures Strongest([], occupied, 0.0)
  {}

  lemma StrongestNonNegative(items: seq<Evidence>, occupied: bool, c: real)
    requires Strongest(items, occupied, c)
    ensures c >= 0.0
  {}

  lemma StrongestUnique(items: seq<Evidence>, occupied: bool, c: real, d: real)
    requires Strongest(items, occupied, c) && Strongest(items, occupied, d)
    ensures c == d
  {
    if c != 0.0 {
      var i :| 0 <= i < |items| && items[i].occupied == occupied && Confidence(items[i]) == c;
    }
    if d != 0.0 {
      var i :| 0 <= i < |items| && items[i].occupied == occupied && Confidence(items[i]) == d;
    }
  }

  /** Summed evidence of one polarity for k: hit score times strongest confidence, batch by batch. */
  function Total(h: History, k: Key, occupied: bool, hit: real): real {
    if h == [] then 0.0
    else Total(h[..|h| - 1], k, occupied, hit) + Times(hit, StrongestOf(OfKey(h[|h| - 1].items, k), occupied))
  }

  lemma HistoryPush(h: History, b: Batch, k: Key, occupied: bool, hit: real)
    ensures FirstTime(h + [b], k) == (if OfKey(Everything(h), k) != [] then FirstTime(h, k) else if OfKey(b.items, k) != [] then b.now else 0)
    ensures LastTime(h + [b], k) == (if OfKey(b.items, k) != [] then b.now else LastTime(h, k))
    ensures LastTimeOf(h + [b], k, occupied) == (if Mentions(b, k, occupied) then b.now else LastTimeOf(h, k, occupied))
    ensures Total(h + [b], k, occupied, hit) == Total(h, k, occupied, hit) + Times(hit, StrongestOf(OfKey(b.items, k), occupied))
  {
    hide Times, StrongestOf;
    assert (h + [b])[..|h|] == h;
  }

  lemma {:induction false} UnseenMeansNothing(h: History, k: Key, occupied: bool, hit: real)
    requires OfKey(Everything(h), k) == []
    ensures FirstTime(h, k) == 0 == LastTime(h, k) == LastTimeOf(h, k, occupied) && Total(h, k, occupied, hit) == 0.0
  {
    hide Times;
    if h != [] {
      var n := |h| - 1;
      OfKeyConcat(Everything(h[..n]), h[n].items, k);
      UnseenMeansNothing(h[..n], k, occupied, hit);
      TimesSign(hit, 0.0);
    }
  }

  lemma {:induction false} TotalNonNegative(h: History, k: Key, occupied: bool, hit: real)
    requires hit >= 0.0
    ensures Total(h, k, occupied, hit) >= 0.0
  {
    hide Times, StrongestOf;
    if h != [] {
      var items := OfKey(h[|h| - 1].items, k);
      TotalNonNegative(h[..|h| - 1], k, occupied, hit);
      StrongestIs(items, occupied);
      StrongestNonNegative(items, occupied, StrongestOf(items, occupied));
      TimesSign(hit, StrongestOf(items, occupied));
    }
  }

  // ---------------------------------------------------------------- the record of a cell

  /** Confidence, height range, source and time stamps are those of all evidence ever accepted. */
  ghost predicate Recorded(k: Key, c: Cell, h: History) {
    var mine := OfKey(Everything(h), k);
    && mine != [] && Peak(mine, c.confidence) && Spans(mine, c.minZ, c.maxZ) && c.source == mine[|mine| - 1].source
    && c.firstObserved == FirstTime(h, k) && c.lastObserved == LastTime(h, k)
    && c.lastOccupied == LastTimeOf(h, k, true) && c.lastFree == LastTimeOf(h, k, false)
  }

  /** Scores are the summed evidence, capped once at the maximum. */
  ghost predicate Summed(cfg: Config, k: Key, c: Cell, h: History) {
    && c.occupiedScore == Min(Total(h, k, true, cfg.occupiedHit), cfg.maxScore)
    && c.freeScore == Min(Total(h, k, false, cfg.freeHit), cfg.maxScore)
  }

  lemma RecordedAfterSilence(now: int, k: Key, c: Cell, h: History, acc: seq<Seen>)
    requires Recorded(k, c, h) && k !in KeysOf(acc)
    ensures Recorded(k, c, h + [Batch(now, acc)])
  {
    hide Everything, Peak, Spans, KeysOf, OfKey, FirstTime, LastTime, LastTimeOf, Total;
    EverythingPush(h, Batch(now, acc));
    OfKeyConcat(Everything(h), acc, k);
    OfKeyEmptyIff(acc, k);
    assert OfKey(Everything(h), k) + [] == OfKey(Everything(h), k);
    HistoryPush(h, Batch(now, acc), k, true, 0.0);
    HistoryPush(h, Batch(now, acc), k, false, 0.0);
  }

  lemma SummedAfterSilence(cfg: Config, now: int, k: Key, c: Cell, h: History, acc: seq<Seen>)
    requires Summed(cfg, k, c, h) && k !in KeysOf(acc)
    ensures Summed(cfg, k, c, h + [Batch(now, acc)])
  {
    hide Everything, KeysOf, OfKey, Total, Times;
    OfKeyEmptyIff(acc, k);
    HistoryPush(h, Batch(now, acc), k, true, cfg.occupiedHit);
    HistoryPush(h, Batch(now, acc), k, false, cfg.freeHit);
    TimesSign(cfg.occupiedHit, 0.0);
    TimesSign(cfg.freeHit, 0.0);
  }

  /** The base that evidence for k is merged into: its cell, or a new one. */
  ghost predicate IsBase(cfg: Config, now: int, k: Key, c: Cell, h: History, d: Digest) {
    Recorded(k, c, h) || (OfKey(Everything(h), k) == [] && c == NewCell(cfg, k, now, d.minZ, d.maxZ))
  }

  lemma RecordedAfterMerge(cfg: Config, now: int, k: Key, c: Cell, h: History, acc: seq<Seen>)
    requires OfKey(acc, k) != [] && IsBase(cfg, now, k, c, h, DigestOf(OfKey(acc, k)))
    ensures Recorded(k, Merged(cfg, now, c, DigestOf(OfKey(acc, k))), h + [Batch(now, acc)])
  {
    hide Everything, Peak, Spans, OfKey, FirstTime, LastTime, LastTimeOf, DigestOf, Merged;
    EverythingPush(h, Batch(now, acc));
    OfKeyConcat(Everything(h), acc, k);
    MergedTimes(cfg, now, k, c, h, acc);
    if OfKey(Everything(h), k) == [] {
      FreshEvidence(cfg, now, k, OfKey(acc, k));
      assert [] + OfKey(acc, k) == OfKey(acc, k);
    } else {
      MergedEvidence(cfg, now, c, OfKey(Everything(h), k), OfKey(acc, k));
    }
  }

  lemma MergedTimes(cfg: Config, now: int, k: Key, c: Cell, h: History, acc: seq<Seen>)
    requires OfKey(acc, k) != [] && IsBase(cfg, now, k, c, h, DigestOf(OfKey(acc, k)))
    ensures var c', h' := Merged(cfg, now, c, DigestOf(OfKey(acc, k))), h + [Batch(now, acc)];
            && c'.firstObserved == FirstTime(h', k) && c'.lastObserved == LastTime(h', k)
            && c'.lastOccupied == LastTimeOf(h', k, true) && c'.lastFree == LastTimeOf(h', k, false)
  {
    hide Everything, Peak, Spans, OfKey, FirstTime, LastTime, LastTimeOf, Total, DigestOf, Times, ClampScore, Max, Min, CountOf,
         Strongest, CentreOf;
    HistoryPush(h, Batch(now, acc), k, true, 0.0);
    HistoryPush(h, Batch(now, acc), k, false, 0.0);
    DigestMeans(OfKey(acc, k));
    if OfKey(Everything(h), k) == [] {
      UnseenMeansNothing(h, k, true, 0.0);
      UnseenMeansNothing(h, k, false, 0.0);
    }
  }

  lemma FreshEvidence(cfg: Config, now: int, k: Key, mine: seq<Evidence>)
    requires mine != []
    ensures var d := DigestOf(mine);
            var c := Merged(cfg, now, NewCell(cfg, k, now, d.minZ, d.maxZ), d);
            Peak(mine, c.confidence) && Spans(mine, c.minZ, c.maxZ) && c.source == mine[|mine| - 1].source
  {
    hide Peak, Spans, DigestOf, Times, ClampScore, Max, Min, CountOf, Strongest, CentreOf;
    var d := DigestOf(mine);
    DigestMeans(mine);
    PeakOfPolarities(mine, d.occupiedConfidence, d.freeConfidence);
    FreshMerge(mine, Max(d.occupiedConfidence, d.freeConfidence), d.minZ, d.maxZ);
  }

  lemma MergedEvidence(cfg: Config, now: int, c: Cell, before: seq<Evidence>, mine: seq<Evidence>)
    requires before != [] && mine != [] && Peak(before, c.confidence) && Spans(before, c.minZ, c.maxZ)
    ensures var c' := Merged(cfg, now, c, DigestOf(mine));
            && Peak(before + mine, c'.confidence) && Spans(before + mine, c'.minZ, c'.maxZ)
            && c'.source == (before + mine)[|before + mine| - 1].source
  {
    hide Peak, Spans, DigestOf, Times, ClampScore, Max, Min, CountOf, Strongest;
    var d := DigestOf(mine);
    DigestMeans(mine);
    PeakOfPolarities(mine, d.occupiedConfidence, d.freeConfidence);
    PeakJoins(before, mine, c.confidence, Max(d.occupiedConfidence, d.freeConfidence));
    SpansJoins(before, mine, c.minZ, c.maxZ, d.minZ, d.maxZ);
  }

  lemma FreshMerge(mine: seq<Evidence>, peak: real, lo: real, hi: real)
    requires mine != [] && Peak(mine, peak)
    ensures Max(0.0, peak) == peak && Min(lo, lo) == lo && Max(hi, hi) == hi
  {
    ConfidencePositive(mine[0]);
  }

  lemma CappedSum(total: real, more: real, top: real)
    requires total >= 0.0 && more >= 0.0 && top >= 0.0
    ensures ClampScore(Min(total, top) + more, top) == Min(total + more, top)
  {}

  lemma SummedAfterMerge(cfg: Config, now: int, k: Key, c: Cell, h: History, acc: seq<Seen>)
    requires cfg.occupiedHit >= 0.0 && cfg.freeHit >= 0.0 && cfg.maxScore >= 0.0
    requires OfKey(acc, k) != [] && Summed(cfg, k, c, h)
    ensures Summed(cfg, k, Merged(cfg, now, c, DigestOf(OfKey(acc, k))), h + [Batch(now, acc)])
  {
    hide Everything, OfKey, Total, DigestOf, Times, ClampScore, Max, Min, CountOf, Strongest, StrongestOf, Spans;
    var mine := OfKey(acc, k);
    HistoryPush(h, Batch(now, acc), k, true, cfg.occupiedHit);
    HistoryPush(h, Batch(now, acc), k, false, cfg.freeHit);
    DigestMeans(mine);
    OnePolarity(h, k, mine, true, DigestOf(mine).occupiedConfidence, cfg.occupiedHit, cfg.maxScore);
    OnePolarity(h, k, mine, false, DigestOf(mine).freeConfidence, cfg.freeHit, cfg.maxScore);
  }

  lemma OnePolarity(h: History, k: Key, mine: seq<Evidence>, occupied: bool, c: real, hit: real, top: real)
    requires Strongest(mine, occupied, c) && hit >= 0.0 && top >= 0.0
    ensures StrongestOf(mine, occupied) == c
    ensures var t := Total(h, k, occupied, hit);
            && ClampScore(Min(t, top) + Times(hit, c), top) == Min(t + Times(hit, c), top)
            && (CountOf(mine, occupied) == 0 ==> t + Times(hit, c) == t)
  {
    hide Strongest, StrongestOf, Total, ClampScore, Min, Times, CountOf;
    StrongestIs(mine, occupied);
    StrongestUnique(mine, occupied, c, StrongestOf(mine, occupied));
    StrongestNonNegative(mine, occupied, c);
    TimesSign(hit, c);
    TotalNonNegative(h, k, occupied, hit);
    CappedSum(Total(h, k, occupied, hit), Times(hit, c), top);
  }

  // ---------------------------------------------------------------- the whole map

  ghost predicate AllRecorded(cells: map<Key, Cell>, h: History) {
    && (forall k :: k in cells ==> Recorded(k, cells[k], h))
    && (forall k :: k in cells <==> OfKey(Everything(h), k) != [])
  }

  ghost predicate AllSummed(cfg: Config, cells: map<Key, Cell>, h: History) {
    forall k :: k in cells ==> Summed(cfg, k, cells[k], h)
  }

  lemma UpdatedAt(cfg: Config, now: int, cells: map<Key, Cell>, acc: seq<Seen>, k: Key)
    ensures k in Updated(cfg, now, cells, acc) <==> k in cells || k in KeysOf(acc)
    ensures k in KeysOf(acc) ==> OfKey(acc, k) != [] && Updated(cfg, now, cells, acc)[k] == MergedInto(cfg, now, cells, k, DigestOf(OfKey(acc, k)))
    ensures k !in KeysOf(acc) && k in cells ==> Updated(cfg, now, cells, acc)[k] == cells[k]
  {
    hide MergedInto, DigestOf, OfKey, KeysOf;
    OfKeyEmptyIff(acc, k);
  }

  /** After any update every cell's confidence, height range, source and time stamps are those of all
      evidence ever accepted for its key. */
  lemma UpdateRecords(cfg: Config, now: int, cells: map<Key, Cell>, h: History, acc: seq<Seen>)
    requires AllRecorded(cells, h)
    ensures AllRecorded(Updated(cfg, now, cells, acc), h + [Batch(now, acc)])
  {
    hide OfKey, Everything, KeysOf, DigestOf, Merged, NewCell, Recorded, Updated;
    var cells', h' := Updated(cfg, now, cells, acc), h + [Batch(now, acc)];
    forall k
      ensures k in cells' <==> OfKey(Everything(h'), k) != []
      ensures k in cells' ==> Recorded(k, cells'[k], h')
    {
      UpdatedAt(cfg, now, cells, acc, k);
      EverythingPush(h, Batch(now, acc));
      OfKeyConcat(Everything(h), acc, k);
      OfKeyEmptyIff(acc, k);
      if k in KeysOf(acc) {
        var d := DigestOf(OfKey(acc, k));
        RecordedAfterMerge(cfg, now, k, if k in cells then cells[k] else NewCell(cfg, k, now, d.minZ, d.maxZ), h, acc);
      } else if k in cells {
        RecordedAfterSilence(now, k, cells[k], h, acc);
      }
    }
  }

  /** Over updates without decay every score is the sum, batch by batch, of the hit score times the
      strongest confidence of its polarity, capped at the maximum. */
  lemma UpdateSums(cfg: Config, now: int, cells: map<Key, Cell>, h: History, acc: seq<Seen>)
    requires cfg.occupiedHit >= 0.0 && cfg.freeHit >= 0.0 && cfg.maxScore >= 0.0
    requires AllSummed(cfg, cells, h) && forall k :: k in cells <==> OfKey(Everything(h), k) != []
    ensures AllSummed(cfg, Updated(cfg, now, cells, acc), h + [Batch(now, acc)])
  {
    hide OfKey, Everything, KeysOf, DigestOf, Merged, NewCell, Summed, Updated;
    var cells', h' := Updated(cfg, now, cells, acc), h + [Batch(now, acc)];
    forall k | k in cells' ensures Summed(cfg, k, cells'[k], h') {
      UpdatedAt(cfg, now, cells, acc, k);
      if k in KeysOf(acc) {
        var d := DigestOf(OfKey(acc, k));
        if k !in cells {
          NewCellSummed(cfg, now, k, h, d);
        }
        SummedAfterMerge(cfg, now, k, if k in cells then cells[k] else NewCell(cfg, k, now, d.minZ, d.maxZ), h, acc);
      } else {
        SummedAfterSilence(cfg, now, k, cells[k], h, acc);
      }
    }
  }

  lemma NewCellSummed(cfg: Config, now: int, k: Key, h: History, d: Digest)
    requires OfKey(Everything(h), k) == [] && cfg.maxScore >= 0.0
    ensures Summed(cfg, k, NewCell(cfg, k, now, d.minZ, d.maxZ), h)
  {
    UnseenMeansNothing(h, k, true, cfg.occupiedHit);
    UnseenMeansNothing(h, k, false, cfg.freeHit);
  }

  // ---------------------------------------------------------------- decay

  /** Both scores lowered by a, cut at 0, with the flags following; all else as it was. */
  ghost predicate FadedBy(cfg: Config, c: Cell, c': Cell, a: real) {
    && c'.occupiedScore == Max(0.0, c.occupiedScore - a) && c'.freeScore == Max(0.0, c.freeScore - a)
    && c'.occupied == (c'.occupiedScore >= cfg.occupiedThreshold) && c'.free == (c'.freeScore >= cfg.freeThreshold)
    && c'.positive == c.positive && c'.negative == c.negative && c'.duplicates == c.duplicates && c'.confidence == c.confidence
    && c'.centre == c.centre && c'.minZ == c.minZ && c'.maxZ == c.maxZ && c'.source == c.source && c'.observed == c.observed
    && c'.firstObserved == c.firstObserved && c'.lastObserved == c.lastObserved
    && c'.lastOccupied == c.lastOccupied && c'.lastFree == c.lastFree
  }

  lemma DecayFades(cfg: Config, c: Cell, a: real)
    requires Scored(cfg, c) && c.observed && a >= 0.0
    ensures FadedBy(cfg, c, Decayed(cfg, c, a), a)
  {}

  /** Decay only depends on the time that has passed, not on how often it was applied. */
  lemma DecaysAdd(cfg: Config, c: Cell, a: real, b: real)
    requires Scored(cfg, c) && c.observed && a >= 0.0 && b >= 0.0
    ensures Decayed(cfg, Decayed(cfg, c, a), b) == Decayed(cfg, c, a + b)
  {}

  /** Every cell decayed by a. */
  function Aged(cfg: Config, cells: map<Key, Cell>, a: real): map<Key, Cell> {
    map k | k in cells :: Decayed(cfg, cells[k], a)
  }

  lemma DecayRecords(cfg: Config, cells: map<Key, Cell>, h: History, a: real)
    requires AllRecorded(cells, h)
    ensures AllRecorded(Aged(cfg, cells, a), h)
  {
    hide OfKey, Everything, Peak, Spans, FirstTime, LastTime, LastTimeOf, ClampScore;
    forall k | k in cells ensures Recorded(k, Decayed(cfg, cells[k], a), h) {
      assert Recorded(k, cells[k], h);
    }
  }

  // ---------------------------------------------------------------- what the map keeps

  /** Everything above, over every run; the score law as long as nothing decays. */
  ghost predicate Remembered(cfg: Config, cells: map<Key, Cell>, h: History) {
    && AllRecorded(cells, h)
    && (cfg.decayPerSecond <= 0.0 && cfg.occupiedHit >= 0.0 && cfg.freeHit >= 0.0 && cfg.maxScore >= 0.0 ==> AllSummed(cfg, cells, h))
  }

  lemma UpdateRemembers(cfg: Config, now: int, cells: map<Key, Cell>, h: History, acc: seq<Seen>)
    requires Remembered(cfg, cells, h)
    ensures Remembered(cfg, Updated(cfg, now, cells, acc), h + [Batch(now, acc)])
  {
    hide AllSummed, Recorded, OfKey, Everything, Updated;
    UpdateRecords(cfg, now, cells, h, acc);
    if cfg.decayPerSecond <= 0.0 && cfg.occupiedHit >= 0.0 && cfg.freeHit >= 0.0 && cfg.maxScore >= 0.0 {
      UpdateSums(cfg, now, cells, h, acc);
    }
  }

  lemma DecayRemembers(cfg: Config, cells: map<Key, Cell>, h: History, a: real)
    requires Remembered(cfg, cells, h) && (cfg.decayPerSecond <= 0.0 ==> a <= 0.0)
    ensures Remembered(cfg, Aged(cfg, cells, a), h)
  {
    hide AllRecorded, ClampScore, Total;
    DecayRecords(cfg, cells, h, a);
  }

  /** The full account of every cell. */
  ghost predicate Books(cfg: Config, cells: map<Key, Cell>, h: History) {
    AllAccount(cfg, cells, h) && Remembered(cfg, cells, h)
  }

  lemma UpdateKeepsBooks(cfg: Config, now: int, cells: map<Key, Cell>, h: History, acc: seq<Seen>)
    requires Books(cfg, cells, h)
    ensures Books(cfg, Updated(cfg, now, cells, acc), h + [Batch(now, acc)])
  {
    hide AllAccount, Remembered, Updated;
    UpdateAccounts(cfg, now, cells, h, acc);
    UpdateRemembers(cfg, now, cells, h, acc);
  }

  lemma DecayKeepsBooks(cfg: Config, cells: map<Key, Cell>, h: History, a: real)
    requires Books(cfg, cells, h) && (cfg.decayPerSecond <= 0.0 ==> a <= 0.0)
    ensures Books(cfg, Aged(cfg, cells, a), h)
  {
    hide AllAccount, Remembered, Decayed;
    DecayAccounts(cfg, cells, h, a);
    DecayRemembers(cfg, cells, h, a);
  }

  lemma EmptyBooks(cfg: Config)
    ensures Books(cfg, map[], [])
  {}

  /** Cells without evidence in a batch only fade. */
  ghost predicate OthersFade(cfg: Config, cells: map<Key, Cell>, cells': map<Key, Cell>, acc: seq<Seen>, a: real) {
    forall k :: k in cells && k !in KeysOf(acc) ==> k in cells' && FadedBy(cfg, cells[k], cells'[k], a)
  }

  lemma SilentCellsFade(cfg: Config, now: int, cells: map<Key, Cell>, h: History, acc: seq<Seen>, a: real)
    requires Books(cfg, cells, h) && a >= 0.0
    ensures OthersFade(cfg, cells, Updated(cfg, now, Aged(cfg, cells, a), acc), acc, a)
  {
    hide OfKey, Everything, KeysOf, Decayed, Scored, FadedBy, CountOf, Visits, CentreOf, Updated, Remembered;
    var aged := Aged(cfg, cells, a);
    forall k | k in cells && k !in KeysOf(acc)
      ensures k in Updated(cfg, now, aged, acc) && FadedBy(cfg, cells[k], Updated(cfg, now, aged, acc)[k], a)
    {
      assert Accounts(cfg, k, cells[k], h);
      UpdatedAt(cfg, now, aged, acc, k);
      DecayFades(cfg, cells[k], a);
    }
  }
}
