/** What the evidence of a tick adds up to in one cell of the planning map. */
module PlanningEvidence {
  import opened Grid
  import opened PlanningSpec

  // ---------------------------------------------------------------- locality

  /** The evidence of one key, in order. */
  function About(cfg: Config, cs: seq<L1Cell>, k: Key): seq<L1Cell>
    requires Sane(cfg)
  {
    if cs == [] then []
    else
      var n := |cs| - 1;
      About(cfg, cs[..n], k) + (if CellKey(cfg, cs[n].centre) == k then [cs[n]] else [])
  }

  ghost predicate SameCell(a: Tick, b: Tick, k: Key) {
    && (k in a.live <==> k in b.live)
    && (k in a.live ==> a.live[k] == b.live[k])
    && (k in a.cleared <==> k in b.cleared)
  }

  lemma ObserveHere(cfg: Config, sigmoid: real -> real, n: nat, now: int, a: Tick, b: Tick, c: L1Cell)
    requires Sane(cfg) && SameCell(a, b, CellKey(cfg, c.centre))
    ensures SameCell(Observe(cfg, sigmoid, n, now, a, c), Observe(cfg, sigmoid, n, now, b, c), CellKey(cfg, c.centre))
  {
    hide CellKey, Reinforced, Created, Weakened;
  }

  lemma ObserveElsewhere(cfg: Config, sigmoid: real -> real, n: nat, now: int, t: Tick, c: L1Cell, k: Key)
    requires Sane(cfg) && CellKey(cfg, c.centre) != k
    ensures SameCell(Observe(cfg, sigmoid, n, now, t, c), t, k)
  {
    hide CellKey, Reinforced, Created, Weakened;
  }

  lemma ObserveOneMore(cfg: Config, sigmoid: real -> real, n: nat, now: int, t: Tick, cs: seq<L1Cell>, c: L1Cell)
    requires Sane(cfg)
    ensures ObserveAll(cfg, sigmoid, n, now, t, cs + [c]) == Observe(cfg, sigmoid, n, now, ObserveAll(cfg, sigmoid, n, now, t, cs), c)
  {
    hide Observe;
    assert (cs + [c])[..|cs|] == cs;
  }

  /** A tick treats every key by itself: what becomes of a cell depends only on the evidence for
      its key, in order, however that is interleaved with evidence for other keys. */
  lemma {:induction false} TickIsLocal(cfg: Config, sigmoid: real -> real, n: nat, now: int, t: Tick, cs: seq<L1Cell>, k: Key)
    requires Sane(cfg)
    ensures SameCell(ObserveAll(cfg, sigmoid, n, now, t, cs), ObserveAll(cfg, sigmoid, n, now, t, About(cfg, cs, k)), k)
  {
    hide Observe, CellKey;
    if cs != [] {
      var m := |cs| - 1;
      var c := cs[m];
      var before := ObserveAll(cfg, sigmoid, n, now, t, cs[..m]);
      var mine := About(cfg, cs[..m], k);
      TickIsLocal(cfg, sigmoid, n, now, t, cs[..m], k);
      if CellKey(cfg, c.centre) == k {
        ObserveOneMore(cfg, sigmoid, n, now, t, mine, c);
        ObserveHere(cfg, sigmoid, n, now, before, ObserveAll(cfg, sigmoid, n, now, t, mine), c);
      } else {
        assert mine + [] == mine;
        ObserveElsewhere(cfg, sigmoid, n, now, before, c, k);
      }
    }
  }

  // ---------------------------------------------------------------- accumulation

  /** Summed confidence. */
  function Weight(cs: seq<L1Cell>): real {
    if cs == [] then 0.0 else Weight(cs[..|cs| - 1]) + cs[|cs| - 1].confidence
  }

  function Prior(t: Tick, k: Key): real {
    if k in t.live then t.live[k].cell.logOdds else 0.0
  }

  function PriorCount(t: Tick, k: Key): nat {
    if k in t.live then t.live[k].cell.count else 0
  }

  ghost predicate Hits(cfg: Config, cs: seq<L1Cell>, k: Key)
    requires Sane(cfg)
  {
    forall i :: 0 <= i < |cs| ==>
                  && (cs[i].state == L1State.Occupied || cs[i].state == L1State.Mixed) && cs[i].score >= cfg.minOccupiedScore
                  && CellKey(cfg, cs[i].centre) == k && cs[i].confidence >= 0.0
  }

  ghost predicate Frees(cfg: Config, cs: seq<L1Cell>, k: Key)
    requires Sane(cfg)
  {
    forall i :: 0 <= i < |cs| ==> cs[i].state.ObservedFree? && CellKey(cfg, cs[i].centre) == k && cs[i].confidence >= 0.0
  }

  lemma SharesAdd(w: real, c: real, s: real)
    ensures Times(w + c, s) == Times(w, s) + Times(c, s)
    ensures c >= 0.0 && s >= 0.0 ==> Times(c, s) >= 0.0
  {}

  /** Hits add up: whatever their number and order, the log-odds are the summed evidence, cut off
      once at the maximum. */
  lemma {:induction false} HitsAccumulate(cfg: Config, sigmoid: real -> real, n: nat, now: int, t: Tick, cs: seq<L1Cell>, k: Key)
    requires Sane(cfg) && Hits(cfg, cs, k) && cs != [] && cfg.occupiedIncrement >= 0.0 && Prior(t, k) <= cfg.logOddsMax
    ensures var t' := ObserveAll(cfg, sigmoid, n, now, t, cs);
            && k in t'.live && t'.live[k].writeSeq == n
            && var c := t'.live[k].cell;
               && c.logOdds == Min(Prior(t, k) + Times(Weight(cs), cfg.occupiedIncrement), cfg.logOddsMax)
               && c.score == sigmoid(c.logOdds)
               && c.count == PriorCount(t, k) + |cs| && c.updatedNs == now
               && c.centre == (if k in t.live then t.live[k].cell.centre else CellCentre(cfg, k))
  {
    hide CellKey, CellCentre, Times;
    var m := |cs| - 1;
    SharesAdd(Weight(cs[..m]), cs[m].confidence, cfg.occupiedIncrement);
    if m == 0 {
      assert cs[..m] == [] && Weight(cs) == cs[0].confidence;
      assert ObserveAll(cfg, sigmoid, n, now, t, cs[..m]) == t;
    } else {
      HitsAccumulate(cfg, sigmoid, n, now, t, cs[..m], k);
    }
  }

  /** The confidence is the greatest of the hits' and the one before. */
  lemma {:induction false} HitsConfidence(cfg: Config, sigmoid: real -> real, n: nat, now: int, t: Tick, cs: seq<L1Cell>, k: Key)
    requires Sane(cfg) && Hits(cfg, cs, k) && cs != []
    ensures var t' := ObserveAll(cfg, sigmoid, n, now, t, cs);
            && k in t'.live
            && var c := t'.live[k].cell.confidence;
               && (forall i :: 0 <= i < |cs| ==> cs[i].confidence <= c)
               && (k in t.live ==> t.live[k].cell.confidence <= c)
               && ((k in t.live && c == t.live[k].cell.confidence) || exists i :: 0 <= i < |cs| && cs[i].confidence == c)
  {
    hide CellKey, CellCentre, Times;
    var m := |cs| - 1;
    if m == 0 {
      assert cs[..m] == [];
      assert ObserveAll(cfg, sigmoid, n, now, t, cs[..m]) == t;
    } else {
      HitsConfidence(cfg, sigmoid, n, now, t, cs[..m], k);
    }
  }

  /** Free evidence adds up in the same way, cut off once at the minimum. */
  lemma {:induction false} FreesAccumulate(cfg: Config, sigmoid: real -> real, n: nat, now: int, t: Tick, cs: seq<L1Cell>, k: Key)
    requires Sane(cfg) && Frees(cfg, cs, k) && cs != [] && cfg.freeDecrement >= 0.0 && k in t.live && Prior(t, k) >= -cfg.logOddsMax
    ensures var t' := ObserveAll(cfg, sigmoid, n, now, t, cs);
            && k in t'.live
            && var c := t'.live[k].cell;
               && c.logOdds == Max(Prior(t, k) - Times(Weight(cs), cfg.freeDecrement), -cfg.logOddsMax)
               && c.score == (if c.logOdds < cfg.evictionThreshold then 0.0 else sigmoid(c.logOdds))
               && c == t.live[k].cell.(logOdds := c.logOdds, score := c.score)
               && (c.logOdds < cfg.evictionThreshold ==> k in t'.cleared)
  {
    hide CellKey, CellCentre, Times;
    var m := |cs| - 1;
    SharesAdd(Weight(cs[..m]), cs[m].confidence, cfg.freeDecrement);
    if m == 0 {
      assert cs[..m] == [] && Weight(cs) == cs[0].confidence;
      assert ObserveAll(cfg, sigmoid, n, now, t, cs[..m]) == t;
    } else {
      FreesAccumulate(cfg, sigmoid, n, now, t, cs[..m], k);
    }
  }

  /** A cell that a tick only sees free is forgotten exactly when the summed evidence takes its
      log-odds below the eviction threshold, wherever in the tick that evidence stands. */
  lemma ForgottenIff(cfg: Config, sigmoid: real -> real, now: int, s: State, cs: seq<L1Cell>, k: Key)
    requires Sane(cfg) && Positive(sigmoid) && WellFormed(cfg, s) && k in s.live
    requires var mine := About(cfg, cs, k); mine != [] && Frees(cfg, mine, k)
    requires cfg.freeDecrement >= 0.0 && s.live[k].cell.logOdds >= -cfg.logOddsMax
    ensures k !in Updated(cfg, sigmoid, now, s, cs).live <==>
            Max(s.live[k].cell.logOdds - Times(Weight(About(cfg, cs, k)), cfg.freeDecrement), -cfg.logOddsMax) < cfg.evictionThreshold
  {
    hide Times, CellKey, ObserveAll, About, Weight, Frees;
    var t := Tick(s.live, [], []);
    TickIsLocal(cfg, sigmoid, s.mapSeq + 1, now, t, cs, k);
    FreesAccumulate(cfg, sigmoid, s.mapSeq + 1, now, t, About(cfg, cs, k), k);
    var t' := ObserveAll(cfg, sigmoid, s.mapSeq + 1, now, t, cs);
    assert k in t'.live && Updated(cfg, sigmoid, now, s, cs).live == Swept(t'.live, t'.cleared);
  }

  /** Unknown and stale cells, and occupied ones below the minimum score, change nothing; nor does a
      free cell where nothing is remembered. */
  lemma IgnoredEvidence(cfg: Config, sigmoid: real -> real, n: nat, now: int, t: Tick, c: L1Cell)
    requires Sane(cfg)
    requires c.state == L1State.Unknown || c.state == L1State.Stale
             || ((c.state == L1State.Occupied || c.state == L1State.Mixed) && c.score < cfg.minOccupiedScore)
             || (c.state == ObservedFree && CellKey(cfg, c.centre) !in t.live)
    ensures Observe(cfg, sigmoid, n, now, t, c) == t
  {
    hide CellKey;
  }
}
