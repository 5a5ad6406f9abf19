/** The object-behaviour controller: a behaviour, or a sequence of step behaviours, flown towards
    a selected target, on top of the lifecycle. */
module ObjectController {
  import opened Wrappers
  import opened Lifecycle
  import opened LifecycleHistory

  datatype StepKind = Terminal | Approach | Circle | Other

  /** How many orbits a circling step flies, and which way round. */
  datatype OrbitGoal = OrbitGoal(count: real, clockwise: bool)

  datatype StepSpec = StepSpec(kind: StepKind, duration: real, goal: OrbitGoal)

  datatype Mission = Mission(isSequence: bool, own: StepSpec, steps: seq<StepSpec>, completeAfter: real)

  datatype Event = StepStart(index: nat) | StepComplete(index: nat) | BehaviorStart | BehaviorComplete

  /** Progress of the execute phase. */
  datatype Exec = Exec(started: bool, completed: bool, startedAt: int, index: nat, stepStart: int)

  /** What the target selector and the step's own geometry report. */
  datatype Report = Report(now: int, finish: bool, selected: bool, orbitDone: bool, approachDone: bool)

  function Reset(now: int): Exec {
    Exec(false, false, now, 0, now)
  }

  function ActiveStep(m: Mission, index: nat): StepSpec {
    if !m.isSequence || m.steps == [] then m.own
    else m.steps[if index < |m.steps| then index else |m.steps| - 1]
  }

  predicate OnLastStep(m: Mission, index: nat) {
    !m.isSequence || m.steps == [] || index + 1 >= |m.steps|
  }

  /** The behaviour clock starts with the first selected tick. */
  function WithStart(e: Exec, r: Report): Exec {
    if e.started then e else e.(started := true, startedAt := r.now)
  }

  predicate DurationComplete(m: Mission, e: Exec, r: Report) {
    m.completeAfter > 0.0 && Seconds(e.startedAt, r.now) >= m.completeAfter
  }

  predicate OrbitComplete(m: Mission, e: Exec, r: Report) {
    !r.finish && !DurationComplete(m, e, r) && ActiveStep(m, e.index).kind == Circle && r.orbitDone
  }

  /** The active sequence step is over: its duration has passed, its orbits are flown, its
      standoff is reached, or it only marks the end of the mission. */
  predicate StepOver(m: Mission, e: Exec, r: Report) {
    var step := ActiveStep(m, e.index);
    m.isSequence &&
    ((step.duration > 0.0 && ElapsedAtLeast(e.stepStart, r.now, step.duration))
     || OrbitComplete(m, e, r)
     || (step.kind == Approach && !r.finish && !DurationComplete(m, e, r) && r.approachDone)
     || step.kind == Terminal)
  }

  datatype ExecOutcome = ExecOutcome(exec: Exec, decision: Decision, events: seq<Event>)

  /** One tick of the execute phase. */
  function ExecuteTick(m: Mission, e0: Exec, r: Report): ExecOutcome {
    if r.selected then
      var e := WithStart(e0, r);
      var opening := if e0.started then [] else (if m.isSequence then [StepStart(e.index)] else []) + [BehaviorStart];
      if StepOver(m, e, r) && !OnLastStep(m, e.index) then
        ExecOutcome(e.(index := e.index + 1, stepStart := r.now), Wait,
                    opening + [StepComplete(e.index), StepStart(e.index + 1)])
      else if r.finish || DurationComplete(m, e, r) || OrbitComplete(m, e, r) || StepOver(m, e, r) then
        ExecOutcome(e.(completed := true), Leave, opening + (if e.completed then [] else [BehaviorComplete]))
      else
        ExecOutcome(e, Fly, opening)
    else if r.finish then ExecOutcome(e0, Leave, [])
    else ExecOutcome(e0, Fly, [])
  }

  predicate InRange(m: Mission, e: Exec) {
    e.index == 0 || (m.isSequence && e.index < |m.steps|)
  }

  // ---------------------------------------------------------------- runs of the execute phase

  function ExecAfter(m: Mission, e: Exec, rs: seq<Report>): Exec {
    if rs == [] then e else ExecuteTick(m, ExecAfter(m, e, rs[..|rs| - 1]), rs[|rs| - 1]).exec
  }

  function EventsOf(m: Mission, e: Exec, rs: seq<Report>): seq<Event> {
    if rs == [] then []
    else EventsOf(m, e, rs[..|rs| - 1]) + ExecuteTick(m, ExecAfter(m, e, rs[..|rs| - 1]), rs[|rs| - 1]).events
  }

  function StepEvents(es: seq<Event>): seq<Event> {
    if es == [] then []
    else StepEvents(es[..|es| - 1]) + (if es[|es| - 1].StepStart? || es[|es| - 1].StepComplete? then [es[|es| - 1]] else [])
  }

  lemma {:induction false} StepEventsConcat(a: seq<Event>, b: seq<Event>)
    ensures StepEvents(a + b) == StepEvents(a) + StepEvents(b)
  {
    if b == [] {
      assert a + b == a;
    } else {
      assert (a + b)[..|a + b| - 1] == a + b[..|b| - 1];
      StepEventsConcat(a, b[..|b| - 1]);
    }
  }

  /** start 0, complete 0, start 1, complete 1, ..., start i. */
  function Alternating(i: nat): seq<Event> {
    if i == 0 then [StepStart(0)] else Alternating(i - 1) + [StepComplete(i - 1), StepStart(i)]
  }

  lemma StepEventsOfTick(m: Mission, e: Exec, r: Report)
    requires m.isSequence
    ensures var o := ExecuteTick(m, e, r);
            var opening := if r.selected && !e.started then [StepStart(e.index)] else [];
            StepEvents(o.events) == opening + (if o.exec.index == e.index then []
                                               else [StepComplete(e.index), StepStart(e.index + 1)])
    ensures var o := ExecuteTick(m, e, r);
            && (o.exec.index == e.index || (r.selected && o.exec.index == e.index + 1))
            && o.exec.started == (e.started || r.selected)
            && (InRange(m, e) ==> InRange(m, o.exec))
  {
    hide StepOver, DurationComplete, OrbitComplete, StepEvents;
    var o := ExecuteTick(m, e, r);
    var start: seq<Event> := if r.selected && !e.started then [StepStart(e.index), BehaviorStart] else [];
    var rest: seq<Event> := o.events[|start|..];
    assert o.events == start + rest;
    StepEventsConcat(start, rest);
    ShortStepEvents(e.index);
  }

  lemma ShortStepEvents(i: nat)
    ensures StepEvents([]) == [] && StepEvents([BehaviorComplete]) == []
    ensures StepEvents([StepStart(i), BehaviorStart]) == [StepStart(i)]
    ensures StepEvents([StepComplete(i), StepStart(i + 1)]) == [StepComplete(i), StepStart(i + 1)]
  {
    assert [StepStart(i), BehaviorStart][..1] == [StepStart(i)] && [StepStart(i)][..0] == [];
    assert [StepComplete(i), StepStart(i + 1)][..1] == [StepComplete(i)] && [StepComplete(i)][..0] == [];
  }

  /** In every run of a sequence the step events are a prefix of start 0, complete 0, start 1,
      ..., exactly as long as the step index says, and the index stays in range. */
  lemma {:induction false} StepEventsAlternate(m: Mission, now: int, rs: seq<Report>)
    requires m.isSequence
    ensures var e := ExecAfter(m, Reset(now), rs);
            && InRange(m, e)
            && StepEvents(EventsOf(m, Reset(now), rs)) == (if e.started then Alternating(e.index) else [])
            && (!e.started ==> e.index == 0)
  {
    hide ExecuteTick, StepEvents, InRange;
    if rs == [] {
      assert InRange(m, Reset(now)) && StepEvents([]) == [] by { NewRun(m, now); }
    } else {
      var n := |rs| - 1;
      StepEventsAlternate(m, now, rs[..n]);
      var e := ExecAfter(m, Reset(now), rs[..n]);
      StepEventsConcat(EventsOf(m, Reset(now), rs[..n]), ExecuteTick(m, e, rs[n]).events);
      StepEventsOfTick(m, e, rs[n]);
    }
  }

  lemma NewRun(m: Mission, now: int)
    ensures InRange(m, Reset(now)) && StepEvents([]) == []
  {}

  // ---------------------------------------------------------------- what one tick decides

  /** One execute tick, spelled out: when a step that is not the last ends, when the phase is left,
      and which of the once-only events are sent. */
  lemma ExecuteDecides(m: Mission, e: Exec, r: Report)
    requires InRange(m, e)
    ensures var o := ExecuteTick(m, e, r);
            var step := if m.isSequence && m.steps != [] then m.steps[e.index] else m.own;
            var last := !m.isSequence || e.index + 1 >= |m.steps|;
            var timeUp := m.completeAfter > 0.0 && Seconds(if e.started then e.startedAt else r.now, r.now) >= m.completeAfter;
            var working := !r.finish && !timeUp;
            var circled := working && step.kind == Circle && r.orbitDone;
            var ends := m.isSequence && (step.kind == Terminal || circled || (working && step.kind == Approach && r.approachDone)
                                         || (step.duration > 0.0 && Seconds(e.stepStart, r.now) >= step.duration));
            && (o.decision == Wait <==> r.selected && ends && !last)
            && o.exec.index == (if o.decision == Wait then e.index + 1 else e.index)
            && o.exec.stepStart == (if o.decision == Wait then r.now else e.stepStart)
            && (o.decision == Leave <==>
                if r.selected then !(ends && !last) && (r.finish || timeUp || circled || ends) else r.finish)
            && (BehaviorStart in o.events <==> r.selected && !e.started)
            && (BehaviorComplete in o.events <==> r.selected && o.decision == Leave && !e.completed)
            && o.exec.startedAt == (if r.selected && !e.started then r.now else e.startedAt)
            && o.exec.started == (e.started || r.selected) && o.exec.completed == (e.completed || (r.selected && o.decision == Leave))
  {
    hide Seconds;
  }

  // ---------------------------------------------------------------- finish request

  /** A finish request is documented to lead straight home.  It does so in the same tick exactly
      when it does not coincide with the end of a sequence step that is not the last. */
  lemma FinishLeavesAtOnceIff(m: Mission, e: Exec, r: Report)
    requires r.finish
    ensures ExecuteTick(m, e, r).decision == Leave <==>
            !(r.selected && StepOver(m, WithStart(e, r), r) && !OnLastStep(m, e.index))
  {
    hide StepOver;
  }

  /** The exception is real: two one-second steps, the request arriving as the first one ends. */
  lemma FinishWaitsForStep(own: StepSpec, goal: OrbitGoal)
    ensures var step := StepSpec(Other, 1.0, goal);
            var m := Mission(true, own, [step, step], 0.0);
            var o := ExecuteTick(m, Reset(0), Report(1000000000, true, true, false, false));
            o.decision == Wait && o.exec.index == 1
  {
    var step := StepSpec(Other, 1.0, goal);
    assert ActiveStep(Mission(true, own, [step, step], 0.0), 0) == step;
  }

  /** Steps a persistent request may still have to walk through. */
  function StepsLeft(m: Mission, e: Exec): nat {
    if OnLastStep(m, e.index) then 1 else |m.steps| - e.index
  }

  /** A persistent finish request leaves the execute phase within max(1, number of steps) ticks. */
  lemma {:induction false} FinishLeavesSoon(m: Mission, e: Exec, rs: seq<Report>)
    requires InRange(m, e) && |rs| >= StepsLeft(m, e)
    requires forall i :: 0 <= i < |rs| ==> rs[i].finish
    ensures exists i :: 0 <= i < StepsLeft(m, e) && ExecuteTick(m, ExecAfter(m, e, rs[..i]), rs[i]).decision == Leave
    ensures StepsLeft(m, e) <= if m.isSequence && |m.steps| > 1 then |m.steps| else 1
    decreases |rs|
  {
    hide StepOver, DurationComplete, OrbitComplete;
    var o := ExecuteTick(m, e, rs[0]);
    assert ExecAfter(m, e, rs[..0]) == e;
    if o.decision != Leave {
      FinishLeavesSoon(m, o.exec, rs[1..]);
      var i :| 0 <= i < StepsLeft(m, o.exec)
               && ExecuteTick(m, ExecAfter(m, o.exec, rs[1..][..i]), rs[1..][i]).decision == Leave;
      ExecAfterFirst(m, e, rs[..i + 1]);
      assert rs[..i + 1][1..] == rs[1..][..i];
      assert ExecuteTick(m, ExecAfter(m, e, rs[..i + 1]), rs[i + 1]).decision == Leave;
    }
  }

  lemma {:induction false} ExecAfterFirst(m: Mission, e: Exec, rs: seq<Report>)
    requires |rs| > 0
    ensures ExecAfter(m, e, rs) == ExecAfter(m, ExecuteTick(m, e, rs[0]).exec, rs[1..])
  {
    hide ExecuteTick;
    if |rs| > 1 {
      ExecAfterFirst(m, e, rs[..|rs| - 1]);
      assert rs[..|rs| - 1][1..] == rs[1..][..|rs| - 2];
    } else {
      assert rs[..0] == [] && rs[1..] == [];
    }
  }

  // ---------------------------------------------------------------- runs of the whole controller

  /** The controller's lifecycle and its progress through the mission. */
  datatype Flight = Flight(life: Life, exec: Exec)

  /** What one tick is given: its input, what selector and geometry report, and whether home is
      reached. */
  datatype Given = Given(input: Input, report: Report, goHome: Decision)

  function FlightStep(cfg: Config, m: Mission, f: Flight, g: Given): Flight {
    var l := Begun(f.life, g.input);
    if l.phase == Execute then
      var o := ExecuteTick(m, f.exec, g.report);
      Flight(Lifecycle.Tick(cfg, f.life, g.input, o.decision, g.goHome).life, o.exec)
    else
      var life := Lifecycle.Tick(cfg, f.life, g.input, Fly, g.goHome).life;
      Flight(life, if l.phase == Takeoff && life.phase == Execute then Reset(g.input.now) else f.exec)
  }

  function FlightAfter(cfg: Config, m: Mission, f: Flight, gs: seq<Given>): Flight
    decreases |gs|
  {
    if gs == [] then f else FlightAfter(cfg, m, FlightStep(cfg, m, f, gs[0]), gs[1..])
  }

  lemma ExecuteFlightStep(cfg: Config, m: Mission, f: Flight, g: Given)
    requires f.life.started && f.life.phase == Execute
    ensures var f', o := FlightStep(cfg, m, f, g), ExecuteTick(m, f.exec, g.report);
            && f'.life.started && f'.exec == o.exec
            && f'.life.phase == if o.decision == Leave then GoHome else Execute
  {
    hide ExecuteTick;
  }

  /** A controller in its execute phase that is asked to finish, tick after tick, is on its way
      home within max(1, number of sequence steps) ticks, whatever it sees meanwhile. */
  lemma {:induction false} FinishGoesHomeSoon(cfg: Config, m: Mission, f: Flight, gs: seq<Given>)
    requires f.life.started && f.life.phase == Execute && InRange(m, f.exec) && |gs| >= StepsLeft(m, f.exec)
    requires forall i :: 0 <= i < |gs| ==> gs[i].report.finish
    ensures exists n :: && 1 <= n <= StepsLeft(m, f.exec) && FlightAfter(cfg, m, f, gs[..n]).life.phase == GoHome
                        && forall j :: 0 <= j < n ==> FlightAfter(cfg, m, f, gs[..j]).life.phase == Execute
    ensures StepsLeft(m, f.exec) <= if m.isSequence && |m.steps| > 1 then |m.steps| else 1
    decreases |gs|
  {
    hide FlightStep, StepOver, DurationComplete, OrbitComplete;
    var o, next := ExecuteTick(m, f.exec, gs[0].report), FlightStep(cfg, m, f, gs[0]);
    ExecuteFlightStep(cfg, m, f, gs[0]);
    assert FlightAfter(cfg, m, f, gs[..0]) == f;
    if o.decision == Leave {
      FirstFlightStep(cfg, m, f, gs, 1);
      assert FlightAfter(cfg, m, next, gs[1..][..0]) == next;
    } else {
      FinishGoesHomeSoon(cfg, m, next, gs[1..]);
      var n :| && 1 <= n <= StepsLeft(m, next.exec) && FlightAfter(cfg, m, next, gs[1..][..n]).life.phase == GoHome
               && forall j :: 0 <= j < n ==> FlightAfter(cfg, m, next, gs[1..][..j]).life.phase == Execute;
      FirstFlightStep(cfg, m, f, gs, n + 1);
      forall j | 0 <= j < n + 1 ensures FlightAfter(cfg, m, f, gs[..j]).life.phase == Execute {
        if j > 0 {
          FirstFlightStep(cfg, m, f, gs, j);
        }
      }
    }
  }

  lemma FirstFlightStep(cfg: Config, m: Mission, f: Flight, gs: seq<Given>, n: nat)
    requires 1 <= n <= |gs|
    ensures FlightAfter(cfg, m, f, gs[..n]) == FlightAfter(cfg, m, FlightStep(cfg, m, f, gs[0]), gs[1..][..n - 1])
  {
    hide FlightStep;
    assert gs[..n][1..] == gs[1..][..n - 1];
  }

  // ---------------------------------------------------------------- frame interval

  /** Time of the last ego snapshot seen on the way home, and the estimated frame interval. */
  datatype Pace = Pace(last: int, interval: real)

  /** The snapshot shows a plausible gap since the last one. */
  predicate Observes(p: Pace, ego: int) {
    ego > 0 && p.last > 0 && 0.0 < Seconds(p.last, ego) < 30.0
  }

  function Paced(p: Pace, ego: int): Pace {
    var interval := if !Observes(p, ego) then p.interval
                    else if p.interval > 0.0 then 0.3 * Seconds(p.last, ego) + 0.7 * p.interval
                    else Seconds(p.last, ego);
    Pace(if ego > 0 then ego else p.last, interval)
  }

  function PaceAfter(p: Pace, egos: seq<int>): Pace {
    if egos == [] then p else Paced(PaceAfter(p, egos[..|egos| - 1]), egos[|egos| - 1])
  }

  ghost predicate GapsWithin(p: Pace, egos: seq<int>, lo: real, hi: real) {
    forall i :: 0 <= i < |egos| ==>
                  var q := PaceAfter(p, egos[..i]);
                  Observes(q, egos[i]) ==> lo <= Seconds(q.last, egos[i]) <= hi
  }

  /** Over every run the estimate stays within the range of the plausible gaps seen, whatever
      stalls, repeated snapshots and clock jumps lie between them. */
  lemma {:induction false} EstimateWithinGaps(p: Pace, egos: seq<int>, lo: real, hi: real)
    requires GapsWithin(p, egos, lo, hi) && (p.interval == 0.0 || lo <= p.interval <= hi) && p.interval >= 0.0
    ensures var e := PaceAfter(p, egos).interval; e >= 0.0 && (e == 0.0 || lo <= e <= hi)
  {
    hide Seconds;
    if egos != [] {
      var n := |egos| - 1;
      forall i | 0 <= i < n
        ensures var q := PaceAfter(p, egos[..n][..i]); Observes(q, egos[..n][i]) ==> lo <= Seconds(q.last, egos[..n][i]) <= hi
      {
        assert egos[..n][..i] == egos[..i];
      }
      EstimateWithinGaps(p, egos[..n], lo, hi);
    }
  }

  function Power(b: real, n: nat): real {
    if n == 0 then 1.0 else b * Power(b, n - 1)
  }

  lemma SteadyFrame(p: Pace, gap: int)
    requires p.last > 0 && p.interval > 0.0 && 0 < gap && Seconds(0, gap) < 30.0
    ensures var q := Paced(p, p.last + gap);
            q.last == p.last + gap && q.interval > 0.0 && q.interval - Seconds(0, gap) == 0.7 * (p.interval - Seconds(0, gap))
  {
    assert Seconds(p.last, p.last + gap) == Seconds(0, gap) > 0.0;
  }

  lemma PowerStep(b: real, n: nat, d: real)
    ensures Power(b, n + 1) * d == b * (Power(b, n) * d)
  {}

  /** Snapshots that follow `last` at a constant distance. */
  ghost predicate Steady(last: int, egos: seq<int>, gap: int) {
    egos != [] ==> egos[0] == last + gap && forall i :: 0 < i < |egos| ==> egos[i] == egos[i - 1] + gap
  }

  /** At a steady frame rate the error of the estimate shrinks by three tenths a frame. */
  lemma {:induction false} EstimateConverges(p: Pace, egos: seq<int>, gap: int)
    requires p.last > 0 && p.interval > 0.0 && 0 < gap && Seconds(0, gap) < 30.0
    requires Steady(p.last, egos, gap)
    ensures var q := PaceAfter(p, egos);
            && q.last > 0 && q.last == (if egos == [] then p.last else egos[|egos| - 1])
            && q.interval > 0.0
            && q.interval - Seconds(0, gap) == Power(0.7, |egos|) * (p.interval - Seconds(0, gap))
  {
    hide Paced, Seconds, Power;
    if egos == [] {
      PowerZero(0.7);
    } else {
      var n := |egos| - 1;
      EstimateConverges(p, egos[..n], gap);
      SteadyFrame(PaceAfter(p, egos[..n]), gap);
      PowerStep(0.7, n, p.interval - Seconds(0, gap));
    }
  }

  lemma PowerZero(b: real)
    ensures Power(b, 0) == 1.0
  {}

  // ---------------------------------------------------------------- the controller

  const PI := 3.14159265358979323846

  /** The target and geometry seen this tick; the angle matters only while circling. */
  datatype Sight = Sight(selected: bool, circling: bool, angle: real, approachDone: bool)

  /** The step counts orbits. */
  predicate Counts(step: StepSpec) {
    step.kind == Circle && step.goal.count > 0.0
  }

  /** An angle difference brought into [-pi, pi] by whole turns. */
  method WrapAngle(delta: real) returns (w: real, ghost turns: int)
    ensures -PI <= w <= PI && w == delta + turns as real * (2.0 * PI)
    ensures -PI <= delta <= PI ==> w == delta
  {
    w, turns := delta, 0;
    while w > PI
      invariant w == delta + turns as real * (2.0 * PI)
      invariant w >= -PI || w == delta
      invariant -PI <= delta <= PI ==> w == delta
      decreases w + PI
    {
      w, turns := w - 2.0 * PI, turns - 1;
    }
    while w < -PI
      invariant w == delta + turns as real * (2.0 * PI)
      invariant w <= PI
      invariant -PI <= delta <= PI ==> w == delta
      decreases PI - w
    {
      w, turns := w + 2.0 * PI, turns + 1;
    }
  }

  class ObjectBehaviorMissionController {
    const cfg: Config
    const mission: Mission
    var life: Life
    /** Inputs and decisions since construction. */
    ghost var moments: seq<Moment>
    var exec: Exec
    var tracking: bool
    var previousAngle: real
    var completedOrbits: real
    var lastEgoTime: int
    var frameInterval: real

    constructor (cfg: Config, mission: Mission)
      ensures Valid() && moments == [] && this.cfg == cfg && this.mission == mission
      ensures completedOrbits == 0.0 && frameInterval == 0.0
    {
      this.cfg, this.mission := cfg, mission;
      life, exec := NEW_LIFE, Reset(0);
      tracking, previousAngle, completedOrbits := false, 0.0, 0.0;
      lastEgoTime, frameInterval, moments := 0, 0.0, [];
    }

    ghost predicate Valid()
      reads this
    {
      life == LifeAfter(cfg, moments) && InRange(mission, exec) && 0.0 <= frameInterval < 30.0
    }

    /** Adds the turn made since the last tick, in the direction the active step commands only;
        progress never decreases while an orbit is tracked, and a tick adds at most half a turn. */
    method UpdateOrbit(step: StepSpec, sight: Sight) returns (done: bool)
      modifies `tracking, `previousAngle, `completedOrbits
      ensures !Counts(step) ==> !done && tracking == old(tracking) && completedOrbits == old(completedOrbits)
      ensures Counts(step) ==> tracking == sight.circling
      ensures Counts(step) && sight.circling && !old(tracking) ==> !done && completedOrbits == 0.0 && previousAngle == sight.angle
      ensures Counts(step) && sight.circling && old(tracking) ==>
                && previousAngle == sight.angle && (done <==> completedOrbits >= step.goal.count)
                && old(completedOrbits) <= completedOrbits <= old(completedOrbits) + 0.5
      ensures Counts(step) && sight.circling && old(tracking) && -PI <= sight.angle - old(previousAngle) <= PI ==>
                var turn := if step.goal.clockwise then old(previousAngle) - sight.angle else sight.angle - old(previousAngle);
                completedOrbits == old(completedOrbits) + (if turn > 0.0 then turn / (2.0 * PI) else 0.0)
      ensures done ==> step.kind == Circle
    {
      if step.kind != Circle || step.goal.count <= 0.0 {
        return false;
      }
      if !sight.circling {
        tracking := false;
        return false;
      }
      if !tracking {
        tracking, previousAngle, completedOrbits := true, sight.angle, 0.0;
        return false;
      }
      ghost var turns;
      var delta;
      delta, turns := WrapAngle(sight.angle - previousAngle);
      var directed := if step.goal.clockwise then -delta else delta;
      if directed > 0.0 {
        completedOrbits := completedOrbits + directed / (2.0 * PI);
      }
      previousAngle := sight.angle;
      done := completedOrbits >= step.goal.count;
    }

    function CurrentPace(): Pace
      reads this
    {
      Pace(lastEgoTime, frameInterval)
    }

    /** Running estimate of the time between two ego snapshots: it moves from its old value towards
        the observed gap and never past either. */
    method UpdateFrameInterval(i: Input)
      requires 0.0 <= frameInterval < 30.0
      modifies `lastEgoTime, `frameInterval
      ensures CurrentPace() == Paced(old(CurrentPace()), i.egoTime)
      ensures 0.0 <= frameInterval < 30.0
      ensures Observes(old(CurrentPace()), i.egoTime) ==>
                var gap := Seconds(old(lastEgoTime), i.egoTime);
                && (old(frameInterval) <= gap ==> old(frameInterval) <= frameInterval <= gap)
                && (0.0 < gap <= old(frameInterval) ==> gap <= frameInterval <= old(frameInterval))
                && frameInterval > 0.0
      ensures !Observes(old(CurrentPace()), i.egoTime) ==> frameInterval == old(frameInterval)
    {
      if i.egoTime > 0 && lastEgoTime > 0 && i.egoTime != lastEgoTime {
        var observed := Seconds(lastEgoTime, i.egoTime);
        if observed > 0.0 && observed < 30.0 {
          frameInterval := if frameInterval > 0.0 then 0.3 * observed + 0.7 * frameInterval else observed;
        }
      }
      if i.egoTime > 0 {
        lastEgoTime := i.egoTime;
      }
    }

    /** Home is reached within half a metre, or five at slow frame rates, and at gate height. */
    predicate Arrived(l: Life, i: Input, interval: real) {
      var reach := if interval > 0.5 then 5.0 else 0.5;
      (l.homeX - i.x) * (l.homeX - i.x) + (l.homeY - i.y) * (l.homeY - i.y) <= reach * reach && i.height >= cfg.gateHeight
    }

    method ResetStepTracking()
      modifies `tracking, `previousAngle, `completedOrbits
      ensures !tracking && previousAngle == 0.0 && completedOrbits == 0.0
    {
      tracking, previousAngle, completedOrbits := false, 0.0, 0.0;
    }

    /** The execute phase of a tick. */
    method TickExecute(i: Input, sight: Sight) returns (decision: Decision, events: seq<Event>, report: Report)
      requires InRange(mission, exec)
      modifies `exec, `tracking, `previousAngle, `completedOrbits
      ensures InRange(mission, exec)
      ensures report == Report(i.now, i.finish, sight.selected, report.orbitDone, sight.approachDone)
      ensures ExecOutcome(exec, decision, events) == ExecuteTick(mission, old(exec), report)
      ensures exec.index != old(exec).index ==> !tracking && completedOrbits == 0.0
    {
      hide StepOver, DurationComplete, OrbitComplete, ActiveStep;
      report := Report(i.now, i.finish, sight.selected, false, sight.approachDone);
      events := [];
      if !sight.selected {
        decision := if i.finish then Leave else Fly;
        return;
      }
      var e := WithStart(exec, report);
      if !exec.started {
        events := (if mission.isSequence then [StepStart(e.index)] else []) + [BehaviorStart];
      }
      var durationComplete := DurationComplete(mission, e, report);
      var orbitDone := false;
      if !i.finish && !durationComplete {
        orbitDone := UpdateOrbit(ActiveStep(mission, e.index), sight);
      }
      OrbitReported(mission, e, report, orbitDone);
      report := report.(orbitDone := orbitDone);
      var over := StepOver(mission, e, report);
      if over && !OnLastStep(mission, e.index) {
        events := events + [StepComplete(e.index), StepStart(e.index + 1)];
        exec := e.(index := e.index + 1, stepStart := i.now);
        ResetStepTracking();
        decision := Wait;
      } else if i.finish || durationComplete || orbitDone || over {
        events := events + (if e.completed then [] else [BehaviorComplete]);
        exec := e.(completed := true);
        decision := Leave;
      } else {
        exec := e;
        decision := Fly;
      }
    }

    static lemma OrbitReported(m: Mission, e: Exec, r: Report, orbitDone: bool)
      requires orbitDone ==> !r.finish && !DurationComplete(m, e, r) && ActiveStep(m, e.index).kind == Circle
      ensures var r' := r.(orbitDone := orbitDone);
              (OrbitComplete(m, e, r') <==> orbitDone) && (DurationComplete(m, e, r') <==> DurationComplete(m, e, r))
    {}

    /** One tick: the lifecycle with this controller's decisions; progress starts afresh on
        entering the execute phase. */
    method Tick(i: Input, sight: Sight) returns (command: Option<Command>, events: seq<Event>, ghost execute: Decision, report: Report)
      requires Valid()
      modifies this
      ensures Valid() && |moments| == |old(moments)| + 1 && Safe(cfg, Trace(cfg, moments))
      ensures var l := Begun(old(life), i);
              Outcome(life, command) == Lifecycle.Tick(cfg, old(life), i, execute,
                                                       if Arrived(l, i, frameInterval) then Leave else Fly)
      ensures Begun(old(life), i).phase == Execute ==>
                && report == Report(i.now, i.finish, sight.selected, report.orbitDone, sight.approachDone)
                && ExecOutcome(exec, execute, events) == ExecuteTick(mission, old(exec), report)
      ensures Begun(old(life), i).phase != Execute ==>
                events == [] && exec == if Begun(old(life), i).phase == Takeoff && life.phase == Execute then Exec(false, false, i.now, 0, i.now) else old(exec)
      ensures Flight(life, exec) ==
              FlightStep(cfg, mission, Flight(old(life), old(exec)), Given(i, report, if Arrived(Begun(old(life), i), i, frameInterval) then Leave else Fly))
      ensures report.finish == i.finish
      ensures Told(cfg, moments) && |Trace(cfg, moments)| == |moments|
      ensures moments[..|moments| - 1] == old(moments) && moments[|moments| - 1].input == i && moments[|moments| - 1].execute == execute
      ensures Begun(old(life), i).phase == GoHome ==>
                (life.phase == Land <==>
                 Near(Trace(cfg, moments)[0].input, i, if frameInterval > 0.5 then 5.0 else 0.5) && i.height >= cfg.gateHeight)
      ensures CurrentPace() == if Begun(old(life), i).phase == GoHome then Paced(old(CurrentPace()), i.egoTime) else old(CurrentPace())
    {
      hide Lifecycle.Tick, ExecuteTick, Safe, Trace, LifeAfter, Told, Paced;
      var l := Begun(life, i);
      execute, events := Fly, [];
      report := Report(i.now, i.finish, false, false, false);
      var decision := Fly;
      if l.phase == Execute {
        decision, events, report := TickExecute(i, sight);
        execute := decision;
      } else if l.phase == GoHome {
        UpdateFrameInterval(i);
      }
      var o := Lifecycle.Tick(cfg, life, i, decision, if Arrived(l, i, frameInterval) then Leave else Fly);
      if l.phase == Takeoff && o.life.phase == Execute {
        exec := Reset(i.now);
        ResetStepTracking();
      }
      ghost var m := Moment(i, decision, if Arrived(l, i, frameInterval) then Leave else Fly);
      OneMoreMoment(cfg, moments, m);
      TellsMoment(cfg, moments, m);
      moments := moments + [m];
      life, command := o.life, o.command;
    }
  }
}
