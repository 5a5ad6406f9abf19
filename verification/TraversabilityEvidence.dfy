/** What the evidence written into a traversability cell adds up to, and how a cell is classified
    from it. */
module TraversabilityEvidence {
  import opened Grid
  import opened Traversability

  // ---------------------------------------------------------------- locality

  /** The writes to one key, in order. */
  function About(ts: seq<Touch>, k: Key): seq<Touch> {
    if ts == [] then []
    else About(ts[..|ts| - 1], k) + (if ts[|ts| - 1].key == k then [ts[|ts| - 1]] else [])
  }

  ghost predicate SameCell(a: map<Key, Evidence>, b: map<Key, Evidence>, k: Key) {
    (k in a <==> k in b) && (k in a ==> a[k] == b[k])
  }

  lemma OneMoreWrite(cfg: Config, m: map<Key, Evidence>, ts: seq<Touch>, t: Touch)
    ensures AppliedAll(cfg, m, ts + [t]) == Applied(cfg, AppliedAll(cfg, m, ts), t)
  {
    hide Applied;
    assert (ts + [t])[..|ts|] == ts;
  }

  /** What becomes of a cell depends only on the writes to its key, in order. */
  lemma {:induction false} WritesAreLocal(cfg: Config, m: map<Key, Evidence>, ts: seq<Touch>, k: Key)
    ensures SameCell(AppliedAll(cfg, m, ts), AppliedAll(cfg, m, About(ts, k)), k)
  {
    hide Adjusted;
    if ts != [] {
      var n := |ts| - 1;
      WritesAreLocal(cfg, m, ts[..n], k);
      if ts[n].key == k {
        OneMoreWrite(cfg, m, About(ts[..n], k), ts[n]);
      } else {
        assert About(ts[..n], k) + [] == About(ts[..n], k);
      }
    }
  }

  // ---------------------------------------------------------------- log-odds

  /** How much a write moves the log-odds, before the increment or decrement. */
  function Amount(t: Touch): real {
    match t
    case Merge(_, confidence, _, _, _) => confidence
    case Spread(_, weighted, _) => weighted
    case FreeStep(_, confidence, _) => confidence
  }

  function Weight(ts: seq<Touch>): real {
    if ts == [] then 0.0 else Weight(ts[..|ts| - 1]) + Amount(ts[|ts| - 1])
  }

  function Prior(m: map<Key, Evidence>, k: Key): Evidence {
    if k in m then m[k] else Evidence(0.0, 0.0, 0.0, 0)
  }

  ghost predicate AllTo(ts: seq<Touch>, k: Key, free: bool) {
    forall i :: 0 <= i < |ts| ==> ts[i].key == k && ts[i].FreeStep? == free && Amount(ts[i]) >= 0.0
  }

  lemma SharesAdd(w: real, c: real, s: real)
    ensures Times(w + c, s) == Times(w, s) + Times(c, s)
    ensures c >= 0.0 && s >= 0.0 ==> Times(c, s) >= 0.0
    ensures Times(0.0, s) == 0.0
  {
    TimesSign(c, s);
  }

  /** Free ray steps add up: however many there are, a cell's log-odds are its prior less the summed
      evidence, cut off once at the minimum. */
  lemma {:induction false} FreeStepsAccumulate(cfg: Config, m: map<Key, Evidence>, ts: seq<Touch>, k: Key)
    requires AllTo(ts, k, true) && k in m && cfg.freeDecrement >= 0.0 && -cfg.logOddsMax <= m[k].logOdds <= cfg.logOddsMax
    ensures var m' := AppliedAll(cfg, m, ts);
            k in m' && m'[k].logOdds == Max(m[k].logOdds - Times(Weight(ts), cfg.freeDecrement), -cfg.logOddsMax)
    ensures ScoresIn(AppliedAll(cfg, m, ts)[k]) == ScoresIn(m[k])
  {
    hide Times;
    if ts == [] {
      SharesAdd(0.0, 0.0, cfg.freeDecrement);
    } else {
      var n := |ts| - 1;
      FreeStepsAccumulate(cfg, m, ts[..n], k);
      SharesAdd(Weight(ts[..n]), Amount(ts[n]), cfg.freeDecrement);
    }
  }

  function ScoresIn(e: Evidence): (real, real) {
    (e.mergedScore, e.freeScore)
  }

  /** Free ray steps never create a cell. */
  lemma {:induction false} FreeStepsCreateNothing(cfg: Config, m: map<Key, Evidence>, ts: seq<Touch>, k: Key)
    requires AllTo(ts, k, true) && k !in m
    ensures AppliedAll(cfg, m, ts) == m
  {
    if ts != [] {
      FreeStepsCreateNothing(cfg, m, ts[..|ts| - 1], k);
    }
  }

  /** Merged cells and spread endpoints add up in the same way, cut off once at the maximum; a new
      cell starts from zero. */
  lemma {:induction false} HitsAccumulate(cfg: Config, m: map<Key, Evidence>, ts: seq<Touch>, k: Key)
    requires cfg.enableLogOdds && AllTo(ts, k, false) && ts != [] && cfg.occupiedIncrement >= 0.0
    requires -cfg.logOddsMax <= Prior(m, k).logOdds <= cfg.logOddsMax
    ensures var m' := AppliedAll(cfg, m, ts);
            k in m' && m'[k].logOdds == Min(Prior(m, k).logOdds + Times(Weight(ts), cfg.occupiedIncrement), cfg.logOddsMax)
  {
    hide Times;
    var n := |ts| - 1;
    SharesAdd(Weight(ts[..n]), Amount(ts[n]), cfg.occupiedIncrement);
    SharesAdd(0.0, 0.0, cfg.occupiedIncrement);
    if n > 0 {
      HitsAccumulate(cfg, m, ts[..n], k);
    } else {
      assert ts[..n] == [];
      assert AppliedAll(cfg, m, ts[..n]) == m;
    }
  }

  // ---------------------------------------------------------------- scores and stamps

  /** r is the running maximum of p and the values f gives to the writes that count. */
  ghost predicate PeakOf(r: real, p: real, ts: seq<Touch>, f: Touch -> real) {
    && p <= r
    && (forall i :: 0 <= i < |ts| && ts[i].Merge? ==> f(ts[i]) <= r)
    && (r == p || exists i :: 0 <= i < |ts| && ts[i].Merge? && f(ts[i]) == r)
  }

  function FreeScoreOf(cfg: Config): Touch -> real {
    (t: Touch) => if t.Merge? then ClampScore(t.free, cfg.maxScore) else 0.0
  }

  function MergedScoreOf(cfg: Config): Touch -> real {
    (t: Touch) => if t.Merge? then ClampScore(t.score, cfg.maxScore) else 0.0
  }

  lemma PeakExtends(r: real, p: real, ts: seq<Touch>, f: Touch -> real, t: Touch)
    requires PeakOf(r, p, ts, f)
    ensures t.Merge? ==> PeakOf(Max(r, f(t)), p, ts + [t], f)
    ensures !t.Merge? ==> PeakOf(r, p, ts + [t], f)
  {
    var all := ts + [t];
    assert all[|ts|] == t;
    if r != p {
      var i :| 0 <= i < |ts| && ts[i].Merge? && f(ts[i]) == r;
      assert all[i] == ts[i];
    }
  }

  lemma ScoreStep(p: real, v: real, top: real)
    requires 0.0 <= p <= top
    ensures ClampScore(Max(p, v), top) == Max(p, ClampScore(v, top))
    ensures 0.0 <= ClampScore(Max(p, v), top) <= top
  {}

  /** Scores are running maxima over the merged cells, kept within [0, max]; in log-odds mode the
      merged occupied score is left alone. */
  lemma {:induction false} ScoresArePeaks(cfg: Config, m: map<Key, Evidence>, ts: seq<Touch>, k: Key)
    requires (forall i :: 0 <= i < |ts| ==> ts[i].key == k && (k in m || !ts[i].FreeStep?)) && (ts != [] || k in m)
    requires 0.0 <= Prior(m, k).freeScore <= cfg.maxScore && 0.0 <= Prior(m, k).mergedScore <= cfg.maxScore
    ensures var m' := AppliedAll(cfg, m, ts);
            && k in m' && 0.0 <= m'[k].freeScore <= cfg.maxScore && 0.0 <= m'[k].mergedScore <= cfg.maxScore
            && PeakOf(m'[k].freeScore, Prior(m, k).freeScore, ts, FreeScoreOf(cfg))
            && (if cfg.enableLogOdds then m'[k].mergedScore == Prior(m, k).mergedScore
                else PeakOf(m'[k].mergedScore, Prior(m, k).mergedScore, ts, MergedScoreOf(cfg)))
  {
    hide PeakOf, ClampScore, Times, Clamp;
    if ts == [] {
      NoPeak(Prior(m, k).freeScore, FreeScoreOf(cfg));
      NoPeak(Prior(m, k).mergedScore, MergedScoreOf(cfg));
    } else {
      var n := |ts| - 1;
      var t := ts[n];
      assert ts == ts[..n] + [t];
      var before := Prior(AppliedAll(cfg, m, ts[..n]), k);
      if n > 0 || k in m {
        ScoresArePeaks(cfg, m, ts[..n], k);
      } else {
        assert ts[..n] == [] && AppliedAll(cfg, m, ts[..n]) == m;
        NoPeak(Prior(m, k).freeScore, FreeScoreOf(cfg));
        NoPeak(Prior(m, k).mergedScore, MergedScoreOf(cfg));
      }
      AppliedHere(cfg, AppliedAll(cfg, m, ts[..n]), t);
      PeakExtends(before.freeScore, Prior(m, k).freeScore, ts[..n], FreeScoreOf(cfg), t);
      if t.Merge? {
        ScoreStep(before.freeScore, t.free, cfg.maxScore);
        ScoreStep(before.mergedScore, t.score, cfg.maxScore);
      }
      if !cfg.enableLogOdds {
        PeakExtends(before.mergedScore, Prior(m, k).mergedScore, ts[..n], MergedScoreOf(cfg), t);
      }
    }
  }

  lemma NoPeak(p: real, f: Touch -> real)
    ensures PeakOf(p, p, [], f)
  {}

  lemma AppliedHere(cfg: Config, m: map<Key, Evidence>, t: Touch)
    requires t.key in m || !t.FreeStep?
    ensures t.key in Applied(cfg, m, t) && Applied(cfg, m, t)[t.key] == Adjusted(cfg, Prior(m, t.key), t)
  {
    hide Adjusted;
  }

  /** The stamp of a cell is the latest of its prior stamp and the stamps of the writes. */
  lemma {:induction false} StampIsLatest(cfg: Config, m: map<Key, Evidence>, ts: seq<Touch>, k: Key)
    requires (forall i :: 0 <= i < |ts| ==> ts[i].key == k && (k in m || !ts[i].FreeStep?)) && (ts != [] || k in m)
    ensures var m' := AppliedAll(cfg, m, ts);
            && k in m' && Prior(m, k).lastSeen <= m'[k].lastSeen
            && (forall i :: 0 <= i < |ts| ==> ts[i].seen <= m'[k].lastSeen)
            && (m'[k].lastSeen == Prior(m, k).lastSeen || exists i :: 0 <= i < |ts| && ts[i].seen == m'[k].lastSeen)
  {
    hide Times, Clamp, ClampScore;
    if ts != [] {
      var n := |ts| - 1;
      if n > 0 || k in m {
        StampIsLatest(cfg, m, ts[..n], k);
      } else {
        assert ts[..n] == [] && AppliedAll(cfg, m, ts[..n]) == m;
      }
      AppliedHere(cfg, AppliedAll(cfg, m, ts[..n]), ts[n]);
    }
  }

  // ---------------------------------------------------------------- classification

  lemma FullIffThreshold(v: real, t: real)
    requires t > 0.0
    ensures Normalize(v, t) >= 1.0 <==> v >= t
    ensures 0.0 <= Normalize(v, t) <= 1.0
    ensures Normalize(v, t) == 0.0 <==> v <= 0.0
  {
    assert Times(v / t, t) == v;
    TimesSign(v / t - 1.0, t);
    TimesSign(1.0 - v / t, t);
    TimesSign(v / t, t);
    TimesSign(-(v / t), t);
    assert Times(v / t - 1.0, t) == v - t && Times(1.0 - v / t, t) == t - v && Times(-(v / t), t) == -v;
  }

  /** A recomputed cell, classified by its score, the sign of its log-odds (or its free score) and
      its age alone. */
  lemma StateMeans(cfg: Config, sigmoid: real -> real, now: int, e: Evidence)
    requires cfg.occupiedThreshold > 0.0 && cfg.freeThreshold > 0.0
    ensures var d := Derive(cfg, sigmoid, now, e);
            var score := if cfg.enableLogOdds then sigmoid(e.logOdds) else e.mergedScore;
            var occupied := score >= cfg.occupiedThreshold;
            var free := if cfg.enableLogOdds then e.logOdds < 0.0 && !occupied else e.freeScore >= cfg.freeThreshold;
            var stale := cfg.staleAfter > 0.0 && e.lastSeen != 0 && now > e.lastSeen
                         && (now - e.lastSeen) as real > cfg.staleAfter * 1000000000.0;
            && d.occupiedScore == score && d.stale == stale
            && (d.state == Occupied <==> occupied && !free)
            && (d.state == Mixed <==> occupied && free)
            && (d.state == ObservedFree <==> !occupied && free && !stale)
            && (d.state == Stale <==> !occupied && stale)
            && (d.state == Unknown <==> !occupied && !free && !stale)
  {
    hide Normalize, Clamp01;
    FullIffThreshold(OccupiedScore(cfg, sigmoid, e), cfg.occupiedThreshold);
    FullIffThreshold(e.freeScore, cfg.freeThreshold);
  }

  /** The graded scores: all within [0, 1]; nothing is unknown once a threshold is met; uncontested
      evidence is stable, fully contested evidence volatile, and no evidence is unknown. */
  lemma ScoresMean(cfg: Config, sigmoid: real -> real, now: int, e: Evidence)
    requires cfg.occupiedThreshold > 0.0 && cfg.freeThreshold > 0.0
    ensures var d := Derive(cfg, sigmoid, now, e);
            var occupied, free := d.occupiedScore >= cfg.occupiedThreshold, e.freeScore >= cfg.freeThreshold;
            && 0.0 <= d.unknownScore <= 1.0 && 0.0 <= d.volatility <= 1.0 && 0.0 <= d.stability <= 1.0 && 0.0 <= d.ageScore <= 1.0
            && (d.unknownScore == 0.0 <==> occupied || free)
            && (occupied && free ==> d.volatility == 1.0 && d.stability == 0.0)
            && (occupied && e.freeScore <= 0.0 ==> d.volatility == 0.0 && d.stability == 1.0)
            && (d.occupiedScore <= 0.0 && e.freeScore <= 0.0 ==> d.unknownScore == 1.0 && d.volatility == 0.25 && d.stability == 0.0)
  {
    hide Normalize, Age;
    FullIffThreshold(OccupiedScore(cfg, sigmoid, e), cfg.occupiedThreshold);
    FullIffThreshold(e.freeScore, cfg.freeThreshold);
  }

  /** The age score is the age as a share of the stale limit, and reaches 1 at the limit. */
  lemma AgeMeans(cfg: Config, sigmoid: real -> real, now: int, e: Evidence)
    requires cfg.staleAfter > 0.0
    ensures var d := Derive(cfg, sigmoid, now, e);
            var age := if e.lastSeen == 0 || now <= e.lastSeen then 0.0 else (now - e.lastSeen) as real / 1000000000.0;
            && (age <= cfg.staleAfter ==> Times(d.ageScore, cfg.staleAfter) == age)
            && (age >= cfg.staleAfter ==> d.ageScore == 1.0)
  {
    hide Normalize;
    var age := Age(now, e.lastSeen);
    assert Times(age / cfg.staleAfter, cfg.staleAfter) == age;
    TimesSign(age / cfg.staleAfter - 1.0, cfg.staleAfter);
    TimesSign(1.0 - age / cfg.staleAfter, cfg.staleAfter);
    TimesSign(-(age / cfg.staleAfter), cfg.staleAfter);
    assert Times(age / cfg.staleAfter - 1.0, cfg.staleAfter) == age - cfg.staleAfter;
    assert Times(1.0 - age / cfg.staleAfter, cfg.staleAfter) == cfg.staleAfter - age;
    assert Times(-(age / cfg.staleAfter), cfg.staleAfter) == -age;
  }
}
