/** Level 1: the traversability map.  Each update recomputes only the cells its evidence touched
    and a bounded round-robin slice, yet keeps its occupied set and every evidence-derived field
    equal to what a full pass would produce. */
module Traversability {
  import opened Grid
  import opened KeyedVector

  datatype Config = Config(
    enableLogOdds: bool, occupiedThreshold: real, freeThreshold: real, maxScore: real,
    occupiedIncrement: real, freeDecrement: real, logOddsMax: real,
    staleAfter: real, sweepPerFrame: nat)

  function Clamp(x: real, lo: real, hi: real): real {
    if x < lo then lo else if x > hi then hi else x
  }

  function Clamp01(x: real): real { ClampScore(x, 1.0) }

  /** What evidence writes into a cell. */
  datatype Evidence = Evidence(logOdds: real, mergedScore: real, freeScore: real, lastSeen: int)

  datatype CellState = Unknown | ObservedFree | Occupied | Mixed | Stale

  /** What the recompute pass derives from the evidence and the clock. */
  datatype Derived = Derived(occupiedScore: real, unknownScore: real, volatility: real, stability: real,
                             ageScore: real, stale: bool, state: CellState)

  // ---------------------------------------------------------------- derivation

  function Normalize(value: real, threshold: real): real {
    if !(threshold > 0.0) then (if value > 0.0 then 1.0 else 0.0) else Clamp01(value / threshold)
  }

  function OccupiedScore(cfg: Config, sigmoid: real -> real, e: Evidence): real {
    if cfg.enableLogOdds then sigmoid(e.logOdds) else e.mergedScore
  }

  /** The test pass 1 uses to keep the occupied set. */
  predicate IsOccupied(cfg: Config, sigmoid: real -> real, e: Evidence) {
    Normalize(OccupiedScore(cfg, sigmoid, e), cfg.occupiedThreshold) >= 1.0
  }

  function Age(now: int, lastSeen: int): real {
    if lastSeen == 0 || now <= lastSeen then 0.0 else (now - lastSeen) as real / 1000000000.0
  }

  function Derive(cfg: Config, sigmoid: real -> real, now: int, e: Evidence): Derived {
    var score := OccupiedScore(cfg, sigmoid, e);
    var occ, free := Normalize(score, cfg.occupiedThreshold), Normalize(e.freeScore, cfg.freeThreshold);
    var unknown := Clamp01(1.0 - Max(occ, free));
    var age := Age(now, e.lastSeen);
    var ageScore := if cfg.staleAfter > 0.0 then Clamp01(age / cfg.staleAfter) else 0.0;
    var stale := cfg.staleAfter > 0.0 && age > cfg.staleAfter;
    var occupied := occ >= 1.0;
    var observedFree := if cfg.enableLogOdds then e.logOdds < 0.0 && !occupied else free >= 1.0;
    var state :=
      if occupied && observedFree then Mixed
      else if occupied then Occupied
      else if observedFree then (if stale then Stale else ObservedFree)
      else (if stale then Stale else Unknown);
    var volatility := Clamp01(Min(occ, free) + 0.25 * unknown);
    Derived(score, unknown, volatility, Clamp01(Max(occ, free) - volatility), ageScore, stale, state)
  }

  /** The occupied test is the threshold test whenever the threshold is positive. */
  lemma OccupiedMeansThreshold(cfg: Config, sigmoid: real -> real, e: Evidence)
    requires cfg.occupiedThreshold > 0.0
    ensures IsOccupied(cfg, sigmoid, e) <==> OccupiedScore(cfg, sigmoid, e) >= cfg.occupiedThreshold
  {
    var v, t := OccupiedScore(cfg, sigmoid, e), cfg.occupiedThreshold;
    assert Times(v / t, t) == v;
    assert Times(v / t - 1.0, t) == v - t;
    TimesSign(v / t - 1.0, t);
    TimesSign(1.0 - v / t, t);
    assert Times(1.0 - v / t, t) == t - v;
  }

  /** The second pass compares the score with the threshold directly.  The two passes agree on
      every score exactly when the threshold is positive. */
  lemma PassesAgreeIff(threshold: real)
    ensures (forall v :: Normalize(v, threshold) >= 1.0 <==> v >= threshold) <==> threshold > 0.0
  {
    if threshold > 0.0 {
      forall v
        ensures Normalize(v, threshold) >= 1.0 <==> v >= threshold
      {
        var cfg := Config(false, threshold, 1.0, 1.0, 0.0, 0.0, 0.0, 0.0, 0);
        OccupiedMeansThreshold(cfg, x => x, Evidence(0.0, v, 0.0, 0));
      }
    } else {
      assert Normalize(threshold, threshold) == 0.0;
    }
  }

  /** Evidence-derived fields do not depend on when they were computed; nor does the state,
      except for going stale. */
  lemma OnlyAgeDependsOnTime(cfg: Config, sigmoid: real -> real, t: int, now: int, e: Evidence)
    ensures var a, b := Derive(cfg, sigmoid, t, e), Derive(cfg, sigmoid, now, e);
            && a.occupiedScore == b.occupiedScore && a.unknownScore == b.unknownScore
            && a.volatility == b.volatility && a.stability == b.stability
            && (a.state == b.state || (t <= now && b.state == Stale) || (now <= t && a.state == Stale))
  {
    assert t <= now ==> Age(t, e.lastSeen) <= Age(now, e.lastSeen);
    assert now <= t ==> Age(now, e.lastSeen) <= Age(t, e.lastSeen);
  }

  // ---------------------------------------------------------------- evidence stages

  /** One write of one stage: merging an obstacle cell, spreading beyond an endpoint, or a free
      ray step.  Free steps never create cells. */
  datatype Touch =
    | Merge(key: Key, confidence: real, score: real, free: real, seen: int)
    | Spread(key: Key, weighted: real, seen: int)
    | FreeStep(key: Key, confidence: real, seen: int)

  const FRESH := Evidence(0.0, 0.0, 0.0, 0)

  function Later(a: int, b: int): int { if a < b then b else a }

  function Adjusted(cfg: Config, e: Evidence, t: Touch): Evidence {
    match t
    case Merge(_, confidence, score, free, seen) =>
      e.(logOdds := if cfg.enableLogOdds
                    then Clamp(e.logOdds + Times(confidence, cfg.occupiedIncrement), -cfg.logOddsMax, cfg.logOddsMax) else e.logOdds,
         mergedScore := if cfg.enableLogOdds then e.mergedScore else ClampScore(Max(e.mergedScore, score), cfg.maxScore),
         freeScore := ClampScore(Max(e.freeScore, free), cfg.maxScore),
         lastSeen := Later(e.lastSeen, seen))
    case Spread(_, weighted, seen) =>
      e.(logOdds := Clamp(e.logOdds + Times(weighted, cfg.occupiedIncrement), -cfg.logOddsMax, cfg.logOddsMax),
         lastSeen := Later(e.lastSeen, seen))
    case FreeStep(_, confidence, seen) =>
      e.(logOdds := Clamp(e.logOdds - Times(confidence, cfg.freeDecrement), -cfg.logOddsMax, cfg.logOddsMax),
         lastSeen := Later(e.lastSeen, seen))
  }

  function Applied(cfg: Config, m: map<Key, Evidence>, t: Touch): map<Key, Evidence> {
    if t.key in m then m[t.key := Adjusted(cfg, m[t.key], t)]
    else if t.FreeStep? then m
    else m[t.key := Adjusted(cfg, FRESH, t)]
  }

  function AppliedAll(cfg: Config, m: map<Key, Evidence>, ts: seq<Touch>): map<Key, Evidence> {
    if ts == [] then m else Applied(cfg, AppliedAll(cfg, m, ts[..|ts| - 1]), ts[|ts| - 1])
  }

  /** The write changes or creates a cell. */
  predicate Writes(m: map<Key, Evidence>, t: Touch) {
    t.key in m || !t.FreeStep?
  }

  /** The keys that the writes of an update change or create. */
  function WrittenBy(cfg: Config, m: map<Key, Evidence>, ts: seq<Touch>): set<Key> {
    if ts == [] then {}
    else
      var n := |ts| - 1;
      WrittenBy(cfg, m, ts[..n]) + (if Writes(AppliedAll(cfg, m, ts[..n]), ts[n]) then {ts[n].key} else {})
  }

  // ---------------------------------------------------------------- round-robin sweep

  function Advance(cursor: nat, total: nat): nat
    requires cursor < total
  {
    if cursor + 1 < total then cursor + 1 else 0
  }

  /** Cursor after k steps of the sweep. */
  function Stepped(cursor: nat, k: nat, total: nat): (c: nat)
    requires cursor < total
    ensures c < total
  {
    if k == 0 then cursor else Advance(Stepped(cursor, k - 1, total), total)
  }

  function Swept(cursor: nat, k: nat, total: nat): set<nat>
    requires cursor < total
  {
    set j | 0 <= j < k :: Stepped(cursor, j, total)
  }

  function Budget(k: nat, total: nat): nat {
    if k < total then k else total
  }

  lemma {:induction false} SteppedAdds(cursor: nat, a: nat, b: nat, total: nat)
    requires cursor < total
    ensures Stepped(Stepped(cursor, a, total), b, total) == Stepped(cursor, a + b, total)
  {
    if b > 0 {
      SteppedAdds(cursor, a, b - 1, total);
    }
  }

  lemma {:induction false} SteppedClosed(cursor: nat, k: nat, total: nat)
    requires cursor < total && k <= total
    ensures Stepped(cursor, k, total) == if cursor + k < total then cursor + k else cursor + k - total
  {
    if k > 0 {
      SteppedClosed(cursor, k - 1, total);
    }
  }

  /** Cells visited by n consecutive updates at fixed map size. */
  function SweptOver(cursor: nat, k: nat, total: nat, n: nat): set<nat>
    requires cursor < total
  {
    if n == 0 then {}
    else SweptOver(cursor, k, total, n - 1) + Swept(Stepped(cursor, (n - 1) * k, total), k, total)
  }

  lemma {:induction false} SweptOverIsOneSweep(cursor: nat, k: nat, total: nat, n: nat)
    requires cursor < total
    ensures SweptOver(cursor, k, total, n) == Swept(cursor, n * k, total)
  {
    if n > 0 {
      SweptOverIsOneSweep(cursor, k, total, n - 1);
      var base := (n - 1) * k;
      assert n * k == base + k;
      forall j | 0 <= j < k
        ensures Stepped(Stepped(cursor, base, total), j, total) == Stepped(cursor, base + j, total)
      {
        SteppedAdds(cursor, base, j, total);
      }
      SweepSplits(cursor, base, k, total);
    }
  }

  lemma SweepSplits(cursor: nat, a: nat, b: nat, total: nat)
    requires cursor < total
    requires forall j :: 0 <= j < b ==> Stepped(Stepped(cursor, a, total), j, total) == Stepped(cursor, a + j, total)
    ensures Swept(cursor, a + b, total) == Swept(cursor, a, total) + Swept(Stepped(cursor, a, total), b, total)
  {
    var next := Stepped(cursor, a, total);
    forall i | i in Swept(cursor, a + b, total)
      ensures i in Swept(cursor, a, total) + Swept(next, b, total)
    {
      var j :| 0 <= j < a + b && Stepped(cursor, j, total) == i;
      if j >= a {
        assert Stepped(next, j - a, total) == Stepped(cursor, a + (j - a), total);
      }
    }
    forall i | i in Swept(next, b, total)
      ensures i in Swept(cursor, a + b, total)
    {
      var j :| 0 <= j < b && Stepped(next, j, total) == i;
      assert Stepped(cursor, a + j, total) == i;
    }
  }

  /** At a fixed map size of N cells, any ceil(N / K) consecutive updates revisit every cell. */
  lemma SweepCoversMap(cursor: nat, k: nat, total: nat, n: nat, i: nat)
    requires cursor < total && k >= 1 && n * k >= total && i < total
    ensures i in SweptOver(cursor, Budget(k, total), total, n)
  {
    var b := Budget(k, total);
    assert n * b >= total by {
      if k >= total {
        assert n >= 1;
        ProductAtLeast(n, total);
      }
    }
    SweptOverIsOneSweep(cursor, b, total, n);
    var j := if i >= cursor then i - cursor else i + total - cursor;
    SteppedClosed(cursor, j, total);
    assert Stepped(cursor, j, total) == i;
  }

  lemma ProductAtLeast(n: nat, m: nat)
    requires n >= 1
    ensures n * m >= m
  {}

  // ---------------------------------------------------------------- the map

  /** A cell: what evidence wrote into it, and what the last pass derived from that. */
  datatype Graded = Graded(evidence: Evidence, derived: Derived)

  ghost function EvidenceOf(cells: seq<Keyed<Graded>>, index: map<Key, nat>): map<Key, Evidence>
    requires IndexOk(cells, index)
  {
    map k | k in index :: cells[index[k]].value.evidence
  }

  lemma IndexedEvidence(cells: seq<Keyed<Graded>>, index: map<Key, nat>)
    requires IndexOk(cells, index)
    ensures EvidenceOf(cells, index).Keys == index.Keys
    ensures forall k :: k in index ==>
              index[k] < |cells| && cells[index[k]].key == k && EvidenceOf(cells, index)[k] == cells[index[k]].value.evidence
  {}

  lemma RewriteEvidence(cells: seq<Keyed<Graded>>, index: map<Key, nat>, k: Key, v: Graded)
    requires IndexOk(cells, index) && k in index
    ensures IndexOk(cells[index[k] := Keyed(k, v)], index)
    ensures EvidenceOf(cells[index[k] := Keyed(k, v)], index) == EvidenceOf(cells, index)[k := v.evidence]
  {}

  lemma PushEvidence(cells: seq<Keyed<Graded>>, index: map<Key, nat>, k: Key, v: Graded)
    requires IndexOk(cells, index) && k !in index
    ensures IndexOk(cells + [Keyed(k, v)], index[k := |cells|])
    ensures EvidenceOf(cells + [Keyed(k, v)], index[k := |cells|]) == EvidenceOf(cells, index)[k := v.evidence]
  {}

  class MissionLocalTraversabilityMap {
    const cfg: Config
    const sigmoid: real -> real
    var cells: seq<Keyed<Graded>>
    var index: map<Key, nat>
    var occupied: set<nat>
    var cursor: nat
    /** Per cell, the time of the pass its derived fields come from. */
    ghost var asOf: seq<int>

    /** Cell i's derived fields are those of a full pass at the time recorded for it, and the
        occupied set lists i exactly if a full pass would. */
    ghost predicate UpToDate(i: nat)
      reads this
      requires i < |cells| && |asOf| == |cells|
    {
      && cells[i].value.derived == Derive(cfg, sigmoid, asOf[i], cells[i].value.evidence)
      && (i in occupied <==> IsOccupied(cfg, sigmoid, cells[i].value.evidence))
    }

    ghost predicate Shape()
      reads this
    {
      && IndexOk(cells, index) && |asOf| == |cells|
      && (forall i :: i in occupied ==> i < |cells|)
    }

    ghost predicate Valid()
      reads this
    {
      && Shape()
      && (forall i :: 0 <= i < |cells| ==> UpToDate(i))
    }

    constructor (cfg: Config, sigmoid: real -> real)
      ensures Valid() && cells == [] && cursor == 0 && this.cfg == cfg && this.sigmoid == sigmoid
    {
      this.cfg, this.sigmoid := cfg, sigmoid;
      cells, index, occupied, cursor, asOf := [], map[], {}, 0, [];
    }

    /** Applies one write; a cell it creates or changes is reported as touched. */
    method Apply(t: Touch, touched: set<Key>, now: int) returns (touched': set<Key>)
      requires Shape() && forall i :: 0 <= i < |cells| && cells[i].key !in touched ==> UpToDate(i)
      modifies `cells, `index, `asOf
      ensures Shape() && forall i :: 0 <= i < |cells| && cells[i].key !in touched' ==> UpToDate(i)
      ensures EvidenceOf(cells, index) == Applied(cfg, old(EvidenceOf(cells, index)), t)
      ensures touched' == if Writes(old(EvidenceOf(cells, index)), t) then touched + {t.key} else touched
      ensures |old(cells)| <= |cells| && forall i :: 0 <= i < |old(cells)| ==> cells[i].key == old(cells)[i].key
      ensures asOf[..|old(asOf)|] == old(asOf)
      ensures forall i :: |old(cells)| <= i < |cells| ==> cells[i].key in touched'
    {
      hide Derive, IsOccupied, Adjusted, IndexOk, EvidenceOf;
      touched' := touched;
      IndexedEvidence(cells, index);
      if t.key in index {
        var i := index[t.key];
        RewriteEvidence(cells, index, t.key, cells[i].value.(evidence := Adjusted(cfg, cells[i].value.evidence, t)));
        cells := cells[i := Keyed(t.key, cells[i].value.(evidence := Adjusted(cfg, cells[i].value.evidence, t)))];
        touched' := touched + {t.key};
      } else if !t.FreeStep? {
        var e := Adjusted(cfg, FRESH, t);
        PushEvidence(cells, index, t.key, Graded(e, Derived(0.0, 1.0, 0.0, 0.0, 0.0, false, Unknown)));
        cells := cells + [Keyed(t.key, Graded(e, Derived(0.0, 1.0, 0.0, 0.0, 0.0, false, Unknown)))];
        index := index[t.key := |cells| - 1];
        asOf := asOf + [now];
        touched' := touched + {t.key};
      }
    }

    /** Recomputes one cell and its membership of the occupied set. */
    method Recompute(i: nat, now: int)
      requires Shape() && i < |cells|
      modifies `cells, `occupied, `asOf
      ensures |cells| == |old(cells)| && Shape() && UpToDate(i)
      ensures var was := old(cells)[i];
              cells == old(cells)[i := Keyed(was.key, was.value.(derived := Derive(cfg, sigmoid, now, was.value.evidence)))]
      ensures asOf == old(asOf)[i := now]
      ensures forall j :: j != i ==> (j in occupied <==> j in old(occupied))
    {
      hide Derive;
      cells := cells[i := Keyed(cells[i].key, cells[i].value.(derived := Derive(cfg, sigmoid, now, cells[i].value.evidence)))];
      asOf := asOf[i := now];
      if IsOccupied(cfg, sigmoid, cells[i].value.evidence) {
        occupied := occupied + {i};
      } else {
        occupied := occupied - {i};
      }
    }

    /** The sweep slice of this update; moves the cursor. */
    method Sweep(picked: set<nat>) returns (picked': set<nat>)
      requires |cells| > 0
      modifies `cursor
      ensures cursor < |cells|
      ensures var start := if old(cursor) < |cells| then old(cursor) else 0;
              && picked' == picked + Swept(start, Budget(cfg.sweepPerFrame, |cells|), |cells|)
              && cursor == Stepped(start, Budget(cfg.sweepPerFrame, |cells|), |cells|)
    {
      var total := |cells|;
      if cursor >= total { cursor := 0; }
      ghost var start := cursor;
      picked' := picked;
      var n := 0;
      while n < cfg.sweepPerFrame && n < total
        invariant n <= Budget(cfg.sweepPerFrame, total)
        invariant cursor == Stepped(start, n, total) && cursor < total
        invariant picked' == picked + Swept(start, n, total)
      {
        assert Swept(start, n + 1, total) == Swept(start, n, total) + {Stepped(start, n, total)};
        picked' := picked' + {cursor};
        cursor := Advance(cursor, total);
        n := n + 1;
      }
    }

    /** Recomputes the picked cells, in whatever order the set is walked. */
    method RecomputeAll(picked: set<nat>, now: int)
      requires Shape() && forall i :: i in picked ==> i < |cells|
      requires forall i :: 0 <= i < |cells| && i !in picked ==> UpToDate(i)
      modifies `cells, `occupied, `asOf
      ensures Valid() && |cells| == |old(cells)|
      ensures EvidenceOf(cells, index) == old(EvidenceOf(cells, index))
      ensures forall i :: 0 <= i < |cells| ==> asOf[i] == if i in picked then now else old(asOf)[i]
    {
      hide Derive, IsOccupied;
      var rest := picked;
      while rest != {}
        invariant Shape() && rest <= picked && |cells| == |old(cells)|
        invariant EvidenceOf(cells, index) == old(EvidenceOf(cells, index))
        invariant forall i :: 0 <= i < |cells| && i !in rest ==> UpToDate(i)
        invariant forall i :: 0 <= i < |cells| ==> asOf[i] == if i in picked - rest then now else old(asOf)[i]
      {
        var i :| i in rest;
        rest := rest - {i};
        Recompute(i, now);
      }
    }

    /** All evidence stages of one update. */
    method ApplyAll(touches: seq<Touch>, now: int) returns (touched: set<Key>)
      requires Valid()
      modifies `cells, `index, `asOf
      ensures Shape() && forall i :: 0 <= i < |cells| && cells[i].key !in touched ==> UpToDate(i)
      ensures EvidenceOf(cells, index) == AppliedAll(cfg, old(EvidenceOf(cells, index)), touches)
      ensures |old(cells)| <= |cells| && asOf[..|old(asOf)|] == old(asOf)
      ensures forall i :: |old(cells)| <= i < |cells| ==> cells[i].key in touched
      ensures touched == WrittenBy(cfg, old(EvidenceOf(cells, index)), touches)
    {
      hide Derive, IsOccupied, Applied, UpToDate, IndexOk, EvidenceOf;
      touched := {};
      ghost var before := EvidenceOf(cells, index);
      for j := 0 to |touches|
        invariant Shape() && forall i :: 0 <= i < |cells| && cells[i].key !in touched ==> UpToDate(i)
        invariant EvidenceOf(cells, index) == AppliedAll(cfg, before, touches[..j])
        invariant |old(cells)| <= |cells| && |asOf| == |cells| && asOf[..|old(asOf)|] == old(asOf)
        invariant forall i :: |old(cells)| <= i < |cells| ==> cells[i].key in touched
        invariant touched == WrittenBy(cfg, before, touches[..j])
      {
        assert touches[..j + 1][..j] == touches[..j];
        touched := Apply(touches[j], touched, now);
      }
      assert touches[..|touches|] == touches;
    }

    /** One update: applies the evidence, then recomputes the touched cells and the next slice of
        the sweep.  Valid says that the occupied set is exactly the set a full pass would find
        and that no evidence-derived field lags; only the time stamps of the other cells do. */
    method Update(touches: seq<Touch>, now: int) returns (ghost picked: set<nat>)
      requires Valid()
      modifies this
      ensures Valid()
      ensures EvidenceOf(cells, index) == AppliedAll(cfg, old(EvidenceOf(cells, index)), touches)
      ensures |old(cells)| <= |cells|
      ensures forall i :: 0 <= i < |cells| && i !in picked ==> i < |old(asOf)| && asOf[i] == old(asOf)[i]
      ensures forall i :: i in picked ==> i < |cells| && asOf[i] == now
      ensures var written := set i | 0 <= i < |cells| && cells[i].key in WrittenBy(cfg, old(EvidenceOf(cells, index)), touches);
              if |cells| == 0 then picked == {}
              else
                var start := if old(cursor) < |cells| then old(cursor) else 0;
                && picked == written + Swept(start, Budget(cfg.sweepPerFrame, |cells|), |cells|)
                && cursor == Stepped(start, Budget(cfg.sweepPerFrame, |cells|), |cells|)
    {
      hide Derive, IsOccupied, AppliedAll, WrittenBy, Stepped, Swept;
      var touched := ApplyAll(touches, now);
      var indices := set k | k in touched && k in index :: index[k];
      assert forall i :: 0 <= i < |cells| && cells[i].key in touched ==> i in indices;
      assert indices == set i | 0 <= i < |cells| && cells[i].key in touched;
      if |cells| > 0 {
        SweptInRange(if cursor < |cells| then cursor else 0, Budget(cfg.sweepPerFrame, |cells|), |cells|);
        indices := Sweep(indices);
      }
      picked := indices;
      RecomputeAll(indices, now);
    }

    /** The cursor the next sweep starts from. */
    function SweepStart(): nat
      reads this
    {
      if cursor < |cells| then cursor else 0
    }

    /** Consecutive updates, as frames bring them in.  If the map did not grow meanwhile and the
        sweep budgets add up to its size, every cell has been recomputed by one of them. */
    method UpdateRepeatedly(frames: seq<(seq<Touch>, int)>) returns (ghost visited: set<nat>)
      requires Valid()
      modifies this
      ensures Valid() && |old(cells)| <= |cells|
      ensures forall i :: i in visited ==> i < |cells| && exists j :: 0 <= j < |frames| && asOf[i] == frames[j].1
      ensures |cells| == |old(cells)| && cfg.sweepPerFrame >= 1 && |frames| * cfg.sweepPerFrame >= |cells| ==>
                forall i :: 0 <= i < |cells| ==> i in visited
    {
      hide Valid, Swept, Stepped, SweptOver, AppliedAll, WrittenBy, EvidenceOf, Budget;
      ValidShape();
      visited := {};
      ghost var total, start := |cells|, SweepStart();
      ghost var budget := Budget(cfg.sweepPerFrame, total);
      if total > 0 {
        NoSweepYet(start, budget, total);
      }
      for j := 0 to |frames|
        invariant Valid() && total <= |cells| == |asOf|
        invariant forall i :: i in visited ==> i < |cells| && exists h :: 0 <= h < j && asOf[i] == frames[h].1
        invariant |cells| == total > 0 ==>
                    SweepStart() == Stepped(start, j * budget, total) && SweptOver(start, budget, total, j) <= visited
      {
        ghost var picked := Update(frames[j].0, frames[j].1);
        ValidShape();
        visited := visited + picked;
        if |cells| == total > 0 {
          OneMoreSweep(start, budget, total, j);
        }
        forall i | i in visited ensures i < |cells| && exists h :: 0 <= h < j + 1 && asOf[i] == frames[h].1 {
          if i in picked {
            assert asOf[i] == frames[j].1;
          }
        }
      }
      if |cells| == total > 0 && cfg.sweepPerFrame >= 1 && |frames| * cfg.sweepPerFrame >= total {
        forall i | 0 <= i < |cells| ensures i in visited {
          SweepCoversMap(start, cfg.sweepPerFrame, total, |frames|, i);
        }
      }
    }

    lemma ValidShape()
      requires Valid()
      ensures |asOf| == |cells|
    {}
  }

  lemma NoSweepYet(cursor: nat, k: nat, total: nat)
    requires cursor < total
    ensures Stepped(cursor, 0 * k, total) == cursor && SweptOver(cursor, k, total, 0) == {}
  {}

  lemma OneMoreSweep(cursor: nat, k: nat, total: nat, n: nat)
    requires cursor < total
    ensures SweptOver(cursor, k, total, n + 1) == SweptOver(cursor, k, total, n) + Swept(Stepped(cursor, n * k, total), k, total)
    ensures Stepped(cursor, (n + 1) * k, total) == Stepped(Stepped(cursor, n * k, total), k, total)
  {
    hide Swept;
    assert (n + 1) * k == n * k + k;
    SteppedAdds(cursor, n * k, k, total);
  }

  lemma SweptInRange(cursor: nat, k: nat, total: nat)
    requires cursor < total
    ensures forall i :: i in Swept(cursor, k, total) ==> i < total
  {}
}
