/** The trajectory controller: flies timed segments, then goes home, on top of the lifecycle. */
module TrajectoryController {
  import opened Wrappers
  import opened Lifecycle
  import opened LifecycleHistory

  function Sum(ds: seq<real>): real {
    if ds == [] then 0.0 else Sum(ds[..|ds| - 1]) + ds[|ds| - 1]
  }

  lemma SumStep(ds: seq<real>, k: nat)
    requires k < |ds|
    ensures Sum(ds[..k + 1]) == Sum(ds[..k]) + ds[k]
  {
    assert ds[..k + 1][..k] == ds[..k];
  }

  lemma {:induction false} SumMono(ds: seq<real>, a: nat, b: nat)
    requires a <= b <= |ds| && forall i :: 0 <= i < |ds| ==> ds[i] >= 0.0
    ensures Sum(ds[..a]) <= Sum(ds[..b])
    decreases b
  {
    if a < b {
      SumMono(ds, a, b - 1);
      SumStep(ds, b - 1);
    }
  }

  /** Position on the trajectory: the current segment and the time spent in it. */
  datatype Position = Position(segment: nat, elapsed: real)

  function Advanced(ds: seq<real>, p: Position): Position
    decreases |ds| - p.segment
  {
    if p.segment < |ds| && p.elapsed >= ds[p.segment] then
      Advanced(ds, Position(p.segment + 1, p.elapsed - ds[p.segment]))
    else p
  }

  /** Time since the first segment began, as a position records it. */
  function Clock(ds: seq<real>, p: Position): real {
    if p.segment <= |ds| then Sum(ds[..p.segment]) + p.elapsed else p.elapsed
  }

  /** Advancing conserves the clock and stops in the segment the clock is in. */
  lemma {:induction false} AdvancedKeepsClock(ds: seq<real>, p: Position)
    requires p.segment <= |ds| && p.elapsed >= 0.0 && forall i :: 0 <= i < |ds| ==> ds[i] >= 0.0
    ensures var q := Advanced(ds, p);
            && p.segment <= q.segment <= |ds| && q.elapsed >= 0.0
            && Clock(ds, q) == Clock(ds, p)
            && (q.segment < |ds| ==> Sum(ds[..q.segment]) <= Clock(ds, p) < Sum(ds[..q.segment + 1]))
            && (q.segment == |ds| <==> Clock(ds, p) >= Sum(ds))
    decreases |ds| - p.segment
  {
    hide Sum;
    assert ds[..|ds|] == ds;
    if p.segment < |ds| {
      SumStep(ds, p.segment);
      if p.elapsed >= ds[p.segment] {
        AdvancedKeepsClock(ds, Position(p.segment + 1, p.elapsed - ds[p.segment]));
      } else {
        SumMono(ds, p.segment + 1, |ds|);
      }
    }
  }

  function Elapse(from: int, to: int): real {
    if Seconds(from, to) > 0.0 then Seconds(from, to) else 0.0
  }

  /** A clock that jumps back does not move the trajectory; one that runs on moves it by as much. */
  lemma ElapseNeverNegative(from: int, to: int)
    ensures to <= from ==> Elapse(from, to) == 0.0
    ensures from <= to ==> Elapse(from, to) == (to - from) as real / 1000000000.0
  {}

  /** Position after flying from t0 through ticks at the given times. */
  function Flown(ds: seq<real>, t0: int, times: seq<int>): Position {
    if times == [] then Position(0, 0.0)
    else
      var n := |times| - 1;
      var p := Flown(ds, t0, times[..n]);
      Advanced(ds, p.(elapsed := p.elapsed + Elapse(if n == 0 then t0 else times[n - 1], times[n])))
  }

  /** With a clock that does not run backwards, the controller's place on the trajectory is the
      one the wall clock says, however the ticks fall, and the trajectory is complete at exactly
      the first tick at or after the total duration. */
  lemma {:induction false} TrajectoryFollowsClock(ds: seq<real>, t0: int, times: seq<int>)
    requires forall i :: 0 <= i < |ds| ==> ds[i] >= 0.0
    requires forall i, j :: 0 <= i < j < |times| ==> times[i] <= times[j]
    requires |times| > 0 && t0 <= times[0]
    ensures var p, total := Flown(ds, t0, times), Seconds(t0, times[|times| - 1]);
            && p.segment <= |ds| && p.elapsed >= 0.0 && Clock(ds, p) == total
            && (p.segment < |ds| ==> Sum(ds[..p.segment]) <= total < Sum(ds[..p.segment + 1]))
            && (p.segment == |ds| <==> total >= Sum(ds))
  {
    hide Sum, Clock, Advanced, Seconds, Elapse;
    var n := |times| - 1;
    var p := Flown(ds, t0, times[..n]);
    var prev := if n == 0 then t0 else times[n - 1];
    if n > 0 {
      TrajectoryFollowsClock(ds, t0, times[..n]);
    } else {
      StartOfClock(ds, t0);
    }
    ElapseAdds(ds, p, t0, prev, times[n]);
    AdvancedKeepsClock(ds, p.(elapsed := p.elapsed + Elapse(prev, times[n])));
  }

  lemma StartOfClock(ds: seq<real>, t0: int)
    ensures Clock(ds, Position(0, 0.0)) == 0.0 == Seconds(t0, t0)
  {
    assert Sum(ds[..0]) == 0.0;
  }

  lemma ElapseAdds(ds: seq<real>, p: Position, t0: int, prev: int, now: int)
    requires prev <= now
    ensures var q := p.(elapsed := p.elapsed + Elapse(prev, now));
            && q.elapsed >= p.elapsed
            && Clock(ds, q) - Clock(ds, p) == Seconds(t0, now) - Seconds(t0, prev)
  {
    hide Sum;
    assert Elapse(prev, now) == Seconds(prev, now);
    assert Seconds(t0, prev) + Seconds(prev, now) == Seconds(t0, now);
  }

  // ---------------------------------------------------------------- runs of the controller

  /** The controller's lifecycle and its place on the trajectory. */
  datatype Flight = Flight(life: Life, place: Position)

  /** Where a tick in the execute phase takes the trajectory. */
  function NextPlace(ds: seq<real>, f: Flight, i: Input): Position {
    Advanced(ds, f.place.(elapsed := f.place.elapsed + Elapse(f.life.lastTick, i.now)))
  }

  function ExecuteDecision(ds: seq<real>, f: Flight, i: Input): Decision {
    if i.finish || NextPlace(ds, f, i).segment >= |ds| then Leave else Fly
  }

  /** One tick; `goHome` says whether home is reached. */
  function FlightStep(cfg: Config, ds: seq<real>, f: Flight, i: Input, goHome: Decision): Flight {
    var life := Lifecycle.Tick(cfg, f.life, i, ExecuteDecision(ds, f, i), goHome).life;
    Flight(life,
           if f.life.started && f.life.phase == Takeoff && life.phase == Execute then Position(0, 0.0)
           else if f.life.started && f.life.phase == Execute && !i.finish then NextPlace(ds, f, i)
           else f.place)
  }

  function FlightAfter(cfg: Config, ds: seq<real>, f: Flight, run: seq<(Input, Decision)>): Flight {
    if run == [] then f
    else
      var n := |run| - 1;
      FlightStep(cfg, ds, FlightAfter(cfg, ds, f, run[..n]), run[n].0, run[n].1)
  }

  function Times(run: seq<(Input, Decision)>): seq<int> {
    seq(|run|, i requires 0 <= i < |run| => run[i].0.now)
  }

  lemma ExecuteFlightStep(cfg: Config, ds: seq<real>, f: Flight, i: Input, goHome: Decision)
    requires f.life.started && f.life.phase == Execute && !i.finish
    ensures var f' := FlightStep(cfg, ds, f, i, goHome);
            && f'.life.started && f'.life.lastTick == i.now && f'.place == NextPlace(ds, f, i)
            && f'.life.phase == if f'.place.segment >= |ds| then GoHome else Execute
  {
    hide NextPlace;
  }

  /** The tick that enters the execute phase puts the controller at the start of its trajectory. */
  lemma EntersAtStart(cfg: Config, ds: seq<real>, f: Flight, i: Input, goHome: Decision)
    requires f.life.started && f.life.phase == Takeoff && FlightStep(cfg, ds, f, i, goHome).life.phase == Execute
    ensures var f' := FlightStep(cfg, ds, f, i, goHome);
            f'.place == Position(0, 0.0) && f'.life.started && f'.life.lastTick == i.now
  {
    hide NextPlace, ExecuteDecision, TickPrepare, TickLand, TickComplete, Decided;
  }

  /** A run that starts as the execute phase is entered at t0 and is not told to finish: up to and
      including the tick at which the total duration is reached, the controller is where the wall
      clock says, and it turns for home at exactly that tick. */
  lemma {:induction false} RunFollowsClock(cfg: Config, ds: seq<real>, f: Flight, run: seq<(Input, Decision)>)
    requires f.life.started && f.life.phase == Execute && f.place == Position(0, 0.0) && |run| > 0
    requires forall i :: 0 <= i < |ds| ==> ds[i] >= 0.0
    requires forall i :: 0 <= i < |run| ==> !run[i].0.finish && f.life.lastTick <= run[i].0.now
    requires forall i, j :: 0 <= i < j < |run| ==> run[i].0.now <= run[j].0.now
    requires |run| > 1 ==> Seconds(f.life.lastTick, run[|run| - 2].0.now) < Sum(ds)
    ensures var f' := FlightAfter(cfg, ds, f, run);
            && f'.place == Flown(ds, f.life.lastTick, Times(run))
            && f'.life.started && f'.life.lastTick == run[|run| - 1].0.now
            && f'.life.phase == if Seconds(f.life.lastTick, run[|run| - 1].0.now) >= Sum(ds) then GoHome else Execute
  {
    hide FlightStep, Sum, Advanced, Seconds, Clock, Elapse, Flown, Times;
    var n, t0 := |run| - 1, f.life.lastTick;
    var before := FlightAfter(cfg, ds, f, run[..n]);
    if n == 0 {
      assert before == f;
      NothingFlown(ds, t0, Times(run));
    } else {
      if n > 1 {
        SecondsMono(t0, run[n - 2].0.now, run[n - 1].0.now);
      }
      RunFollowsClock(cfg, ds, f, run[..n]);
    }
    ExecuteFlightStep(cfg, ds, before, run[n].0, run[n].1);
    RunTimes(run);
    TrajectoryFollowsClock(ds, t0, Times(run));
    FlownStep(ds, t0, Times(run));
  }

  lemma RunTimes(run: seq<(Input, Decision)>)
    requires |run| > 0
    ensures |Times(run)| == |run| && forall i :: 0 <= i < |run| ==> Times(run)[i] == run[i].0.now
    ensures Times(run)[..|run| - 1] == Times(run[..|run| - 1])
  {}

  lemma FlownStep(ds: seq<real>, t0: int, times: seq<int>)
    requires |times| > 0
    ensures var n := |times| - 1;
            var p := Flown(ds, t0, times[..n]);
            Flown(ds, t0, times) == Advanced(ds, p.(elapsed := p.elapsed + Elapse(if n == 0 then t0 else times[n - 1], times[n])))
  {
    hide Advanced, Elapse;
  }

  lemma NothingFlown(ds: seq<real>, t0: int, times: seq<int>)
    ensures Flown(ds, t0, times[..0]) == Position(0, 0.0)
  {}

  lemma SecondsMono(t0: int, a: int, b: int)
    requires a <= b
    ensures Seconds(t0, a) <= Seconds(t0, b)
  {}

  // ---------------------------------------------------------------- the controller

  class TrajectoryMissionController {
    const cfg: Config
    const durations: seq<real>
    var life: Life
    /** Inputs and decisions since construction. */
    ghost var moments: seq<Moment>
    var segment: nat
    var elapsed: real

    constructor (cfg: Config, durations: seq<real>)
      ensures Valid() && moments == [] && this.cfg == cfg
    {
      this.cfg, this.durations := cfg, durations;
      life, segment, elapsed, moments := NEW_LIFE, 0, 0.0, [];
    }

    ghost predicate Valid()
      reads this
    {
      life == LifeAfter(cfg, moments)
    }

    function Place(): Position
      reads this
    {
      Position(segment, elapsed)
    }

    method AdvanceSegmentIfNeeded()
      modifies `segment, `elapsed
      ensures Place() == Advanced(durations, old(Place()))
    {
      while segment < |durations| && elapsed >= durations[segment]
        invariant Advanced(durations, Place()) == Advanced(durations, old(Place()))
        decreases |durations| - segment
      {
        elapsed := elapsed - durations[segment];
        segment := segment + 1;
      }
    }

    predicate AtHome(i: Input, l: Life) {
      (l.homeX - i.x) * (l.homeX - i.x) + (l.homeY - i.y) * (l.homeY - i.y) <= 0.25 || cfg.goHomeSpeed <= 0.0
    }

    ghost function Now(): Flight
      reads this
    {
      Flight(life, Place())
    }

    /** One tick: the lifecycle with this controller's decisions, the trajectory restarted on
        entering the execute phase and advanced while in it. */
    method Tick(i: Input) returns (command: Option<Command>)
      requires Valid()
      modifies this
      ensures Valid() && |moments| == |old(moments)| + 1 && Safe(cfg, Trace(cfg, moments))
      ensures var l := Begun(old(life), i);
              Outcome(life, command) == Lifecycle.Tick(cfg, old(life), i, ExecuteDecision(durations, old(Now()), i),
                                                       if AtHome(i, l) then Leave else Fly)
      ensures Now() == FlightStep(cfg, durations, old(Now()), i, if AtHome(i, Begun(old(life), i)) then Leave else Fly)
      ensures Told(cfg, moments) && |Trace(cfg, moments)| == |moments|
      ensures moments[..|moments| - 1] == old(moments) && moments[|moments| - 1].input == i
      ensures Begun(old(life), i).phase == Execute ==> (life.phase == GoHome <==> i.finish || segment >= |durations|)
      ensures Begun(old(life), i).phase == GoHome ==>
                (life.phase == Land <==> Near(Trace(cfg, moments)[0].input, i, 0.5) || cfg.goHomeSpeed <= 0.0)
    {
      hide Lifecycle.Tick, Advanced, Safe, Trace, LifeAfter, Told;
      var l := Begun(life, i);
      var dt := Elapse(l.lastTick, i.now);
      var execute := Fly;
      if l.phase == Execute {
        if i.finish {
          execute := Leave;
        } else {
          elapsed := elapsed + dt;
          AdvanceSegmentIfNeeded();
          if segment >= |durations| {
            execute := Leave;
          }
        }
      }
      if l.phase != Execute {
        ExecuteDecisionUnused(cfg, life, i, execute, ExecuteDecision(durations, Now(), i), if AtHome(i, l) then Leave else Fly);
      }
      var o := Lifecycle.Tick(cfg, life, i, execute, if AtHome(i, l) then Leave else Fly);
      if l.phase == Takeoff && o.life.phase == Execute {
        segment, elapsed := 0, 0.0;
      }
      ghost var m := Moment(i, execute, if AtHome(i, l) then Leave else Fly);
      OneMoreMoment(cfg, moments, m);
      TellsMoment(cfg, moments, m);
      moments := moments + [m];
      life, command := o.life, o.command;
    }
  }
}
