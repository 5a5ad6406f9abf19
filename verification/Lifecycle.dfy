/** The mission lifecycle both controllers share, one tick at a time, and what every run of it
    guarantees. */
module Lifecycle {
  import opened Wrappers

  datatype Phase = Idle | Prepare | Takeoff | Execute | GoHome | Land | Complete | Abort

  datatype Command = ArmCmd | TakeoffCmd | VelocityCmd | LandCmd | DisarmCmd

  datatype Config = Config(
    gateHeight: real, goHomeSpeed: real, armRetry: real, armTimeout: real, armFallback: real,
    landTimeout: real, disarmRetry: real, disarmTimeout: real)

  const LAND_HEIGHT := 0.25
  const CLIMB_ASSIST_HEIGHT := 0.5

  /** One tick's input; times are in nanoseconds. */
  datatype Input = Input(now: int, finish: bool, armedValid: bool, armed: bool, height: real, armAcked: bool,
                         x: real, y: real, egoTime: int)

  datatype Life = Life(
    phase: Phase, started: bool, phaseStart: int, lastTick: int, homeX: real, homeY: real,
    armSent: bool, armAt: int, takeoffSent: bool, landSent: bool, landAt: int,
    disarmSent: bool, disarmAt: int, aborting: bool)

  const NEW_LIFE := Life(Idle, false, 0, 0, 0.0, 0.0, false, 0, false, false, 0, false, 0, false)

  function Seconds(from: int, to: int): real {
    (to - from) as real / 1000000000.0
  }

  predicate ElapsedAtLeast(from: int, to: int, s: real) {
    Seconds(from, to) >= s
  }

  /** The first tick records home and starts the mission. */
  function Begun(l: Life, i: Input): Life {
    if l.started then l
    else l.(phase := Prepare, started := true, phaseStart := i.now, lastTick := i.now, homeX := i.x, homeY := i.y)
  }

  function Enter(l: Life, p: Phase, now: int): Life {
    l.(phase := p, phaseStart := now)
  }

  function AbortRecovery(l: Life, i: Input): Life {
    Enter(l.(aborting := true), if i.height > LAND_HEIGHT then GoHome else Complete, i.now)
  }

  datatype Outcome = Outcome(life: Life, command: Option<Command>)

  function TickPrepare(cfg: Config, l: Life, i: Input): Outcome {
    if i.finish && i.armedValid && !i.armed then Outcome(Enter(l, Complete, i.now), None)
    else if i.armedValid && i.armed then Outcome(Enter(l, Takeoff, i.now), None)
    else if cfg.armFallback > 0.0 && i.armAcked && ElapsedAtLeast(l.armAt, i.now, cfg.armFallback) then
      Outcome(Enter(l, Takeoff, i.now), None)
    else if ElapsedAtLeast(l.phaseStart, i.now, cfg.armTimeout) then
      if i.armedValid && !i.armed then Outcome(l.(phase := Abort), None)
      else Outcome(AbortRecovery(l, i), None)
    else if !l.armSent || ElapsedAtLeast(l.armAt, i.now, cfg.armRetry) then
      Outcome(l.(armSent := true, armAt := i.now), Some(ArmCmd))
    else Outcome(l, None)
  }

  function TickTakeoff(cfg: Config, l: Life, i: Input): Outcome {
    if i.finish then Outcome(Enter(l, if i.height > LAND_HEIGHT then Land else Complete, i.now), None)
    else if i.height >= cfg.gateHeight then Outcome(Enter(l, Execute, i.now), None)
    else if !l.takeoffSent then Outcome(l.(takeoffSent := true), Some(TakeoffCmd))
    else if i.height >= CLIMB_ASSIST_HEIGHT then Outcome(l, Some(VelocityCmd))
    else Outcome(l, None)
  }

  function TickLand(cfg: Config, l: Life, i: Input): Outcome {
    if i.height <= LAND_HEIGHT then Outcome(Enter(l, Complete, i.now), None)
    else if !l.landSent then Outcome(l.(landSent := true, landAt := i.now), Some(LandCmd))
    else if ElapsedAtLeast(l.landAt, i.now, cfg.landTimeout) then Outcome(l.(phase := Abort), None)
    else Outcome(l, None)
  }

  function TickComplete(cfg: Config, l: Life, i: Input): Outcome {
    if i.armedValid && !i.armed then Outcome(if l.aborting then l.(phase := Abort) else l, None)
    else if ElapsedAtLeast(l.phaseStart, i.now, cfg.disarmTimeout) then Outcome(l.(phase := Abort), None)
    else if !l.disarmSent || ElapsedAtLeast(l.disarmAt, i.now, cfg.disarmRetry) then
      Outcome(l.(disarmSent := true, disarmAt := i.now), Some(DisarmCmd))
    else Outcome(l, None)
  }

  /** What a controller's own execute or go-home step decided: leave the phase, or stay with or
      without a velocity command. */
  datatype Decision = Leave | Fly | Wait

  function Decided(l: Life, i: Input, d: Decision, next: Phase): Outcome {
    match d
    case Leave => Outcome(Enter(l, next, i.now), None)
    case Fly => Outcome(l, Some(VelocityCmd))
    case Wait => Outcome(l, None)
  }

  /** One tick of the lifecycle, given what the controller decides in its own two phases. */
  function Tick(cfg: Config, life: Life, i: Input, execute: Decision, goHome: Decision): Outcome {
    var l := Begun(life, i).(lastTick := i.now);
    match l.phase
    case Prepare => TickPrepare(cfg, l, i)
    case Takeoff => TickTakeoff(cfg, l, i)
    case Execute => Decided(l, i, execute, GoHome)
    case GoHome => Decided(l, i, goHome, Land)
    case Land => TickLand(cfg, l, i)
    case Complete => TickComplete(cfg, l, i)
    case Abort => Outcome(l, None)
    case Idle => Outcome(Enter(l, Prepare, i.now), None)
  }

  // ---------------------------------------------------------------- runs

  /** What is seen from outside at one tick. */
  datatype Seen = Seen(input: Input, before: Phase, after: Phase, command: Option<Command>)

  function Rank(p: Phase): nat {
    match p
    case Idle => 0
    case Prepare => 1
    case Takeoff => 2
    case Execute => 3
    case GoHome => 4
    case Land => 5
    case Complete => 6
    case Abort => 7
  }

  datatype Moment = Moment(input: Input, execute: Decision, goHome: Decision)

  function LifeAfter(cfg: Config, ms: seq<Moment>): Life {
    if ms == [] then NEW_LIFE
    else
      var m := ms[|ms| - 1];
      Tick(cfg, LifeAfter(cfg, ms[..|ms| - 1]), m.input, m.execute, m.goHome).life
  }

  /** Everything seen in a run from a new controller. */
  function Trace(cfg: Config, ms: seq<Moment>): seq<Seen> {
    if ms == [] then []
    else
      var m := ms[|ms| - 1];
      var l := LifeAfter(cfg, ms[..|ms| - 1]);
      var o := Tick(cfg, l, m.input, m.execute, m.goHome);
      Trace(cfg, ms[..|ms| - 1]) + [Seen(m.input, Begun(l, m.input).phase, o.life.phase, o.command)]
  }

  predicate Sends(s: Seen, c: Command) {
    s.command == Some(c)
  }

  /** One tick on its own: the phase never goes back, and each phase sends only its commands. */
  ghost predicate StepSafe(cfg: Config, s: Seen) {
    && Rank(s.before) <= Rank(s.after)
    && (s.after == Execute && s.before != Execute ==> s.before == Takeoff && s.input.height >= cfg.gateHeight)
    && (Sends(s, ArmCmd) ==> s.before == Prepare)
    && (Sends(s, TakeoffCmd) ==> s.before == Takeoff)
    && (Sends(s, LandCmd) ==> s.before == Land)
    && (Sends(s, VelocityCmd) ==> s.before in {Takeoff, Execute, GoHome})
    && (s.before == Complete ==> s.command in {None, Some(DisarmCmd)})
    && (Sends(s, DisarmCmd) ==> s.before == Complete)
    && (s.before == Abort ==> s.after == Abort && s.command == None)
  }

  ghost predicate Ordered(t: seq<Seen>) {
    forall i, j :: 0 <= i < j < |t| ==> Rank(t[i].after) <= Rank(t[j].before)
  }

  ghost predicate AtMostOnce(t: seq<Seen>, c: Command) {
    forall i, j :: 0 <= i < j < |t| ==> !(Sends(t[i], c) && Sends(t[j], c))
  }

  /** i is the last tick before j that sends an Arm. */
  ghost predicate LastArm(t: seq<Seen>, i: int, j: int) {
    0 <= i < j <= |t| && Sends(t[i], ArmCmd) && forall h :: i < h < j ==> !Sends(t[h], ArmCmd)
  }

  ghost predicate ArmsSpaced(cfg: Config, t: seq<Seen>) {
    forall i, j :: 0 <= i < j < |t| && LastArm(t, i, j) && Sends(t[j], ArmCmd) ==>
      ElapsedAtLeast(t[i].input.now, t[j].input.now, cfg.armRetry)
  }

  /** A whole run: every step is safe, ranks never go back, Takeoff and Land are each sent at
      most once, and each Arm follows the previous one by at least the retry interval. */
  ghost predicate Safe(cfg: Config, t: seq<Seen>) {
    && (forall i :: 0 <= i < |t| ==> StepSafe(cfg, t[i]))
    && Ordered(t) && AtMostOnce(t, TakeoffCmd) && AtMostOnce(t, LandCmd) && ArmsSpaced(cfg, t)
  }

  /** What the fields of the controller know about the run so far. */
  ghost predicate Remembers(l: Life, t: seq<Seen>) {
    && (l.started <==> t != [])
    && (l.phase == Idle <==> t == [])
    && (forall i :: 0 <= i < |t| ==> Rank(t[i].after) <= Rank(l.phase))
    && (forall i :: 0 <= i < |t| && Sends(t[i], TakeoffCmd) ==> l.takeoffSent)
    && (forall i :: 0 <= i < |t| && Sends(t[i], LandCmd) ==> l.landSent)
    && (forall i :: LastArm(t, i, |t|) ==> l.armSent && l.armAt == t[i].input.now)
  }

  /** How a tick that starts from l and ends in l' treats the flags. */
  ghost predicate FlagsKept(cfg: Config, l: Life, s: Seen, l': Life) {
    && (l.takeoffSent ==> !Sends(s, TakeoffCmd) && l'.takeoffSent)
    && (l.landSent ==> !Sends(s, LandCmd) && l'.landSent)
    && (Sends(s, TakeoffCmd) ==> l'.takeoffSent)
    && (Sends(s, LandCmd) ==> l'.landSent)
    && (Sends(s, ArmCmd) ==> l'.armSent && l'.armAt == s.input.now)
    && (Sends(s, ArmCmd) && l.armSent ==> ElapsedAtLeast(l.armAt, s.input.now, cfg.armRetry))
    && (!Sends(s, ArmCmd) ==> l'.armSent == l.armSent && l'.armAt == l.armAt)
  }

  function SeenOf(l: Life, i: Input, o: Outcome): Seen {
    Seen(i, l.phase, o.life.phase, o.command)
  }

  ghost predicate Effect(cfg: Config, l: Life, i: Input, o: Outcome) {
    && StepSafe(cfg, SeenOf(l, i, o)) && FlagsKept(cfg, l, SeenOf(l, i, o), o.life)
    && o.life.phase != Idle && o.life.started
  }

  lemma PrepareEffect(cfg: Config, l: Life, i: Input)
    requires l.phase == Prepare && l.started
    ensures Effect(cfg, l, i, TickPrepare(cfg, l, i))
  {
    hide ElapsedAtLeast;
  }

  lemma TakeoffEffect(cfg: Config, l: Life, i: Input)
    requires l.phase == Takeoff && l.started
    ensures Effect(cfg, l, i, TickTakeoff(cfg, l, i))
  {
    hide ElapsedAtLeast;
  }

  lemma LandEffect(cfg: Config, l: Life, i: Input)
    requires l.phase == Land && l.started
    ensures Effect(cfg, l, i, TickLand(cfg, l, i))
  {
    hide ElapsedAtLeast;
  }

  lemma CompleteEffect(cfg: Config, l: Life, i: Input)
    requires l.phase == Complete && l.started
    ensures Effect(cfg, l, i, TickComplete(cfg, l, i))
  {
    hide ElapsedAtLeast;
  }

  lemma DecidedEffect(cfg: Config, l: Life, i: Input, d: Decision)
    requires (l.phase == Execute || l.phase == GoHome) && l.started
    ensures Effect(cfg, l, i, Decided(l, i, d, if l.phase == Execute then GoHome else Land))
  {
    hide ElapsedAtLeast;
  }

  lemma TickEffect(cfg: Config, life: Life, i: Input, execute: Decision, goHome: Decision)
    requires life.phase == Idle <==> !life.started
    ensures var l := Begun(life, i).(lastTick := i.now);
            Effect(cfg, l, i, Tick(cfg, life, i, execute, goHome))
  {
    hide ElapsedAtLeast, TickPrepare, TickTakeoff, TickLand, TickComplete, Decided;
    var l := Begun(life, i).(lastTick := i.now);
    match l.phase {
      case Prepare => PrepareEffect(cfg, l, i);
      case Takeoff => TakeoffEffect(cfg, l, i);
      case Execute => DecidedEffect(cfg, l, i, execute);
      case GoHome => DecidedEffect(cfg, l, i, goHome);
      case Abort =>
      case Land => LandEffect(cfg, l, i);
      case _ => CompleteEffect(cfg, l, i);
    }
  }

  lemma ExtendArms(cfg: Config, t: seq<Seen>, l: Life, s: Seen)
    requires ArmsSpaced(cfg, t) && forall i :: LastArm(t, i, |t|) ==> l.armSent && l.armAt == t[i].input.now
    requires Sends(s, ArmCmd) && l.armSent ==> ElapsedAtLeast(l.armAt, s.input.now, cfg.armRetry)
    ensures ArmsSpaced(cfg, t + [s])
  {
    hide ElapsedAtLeast, LastArm, Sends;
    var t' := t + [s];
    forall i, j | 0 <= i < j < |t'| && LastArm(t', i, j) && Sends(t'[j], ArmCmd)
      ensures ElapsedAtLeast(t'[i].input.now, t'[j].input.now, cfg.armRetry)
    {
      LastArmBefore(t, s, i, j);
      assert t'[i] == t[i] && t'[j] == if j < |t| then t[j] else s;
    }
  }

  lemma LastArmBefore(t: seq<Seen>, s: Seen, i: int, j: int)
    requires LastArm(t + [s], i, j) && j <= |t|
    ensures 0 <= i < j && LastArm(t, i, j)
  {
    hide Sends;
    assert forall h :: i <= h < j ==> (t + [s])[h] == t[h];
  }

  lemma ExtendOnce(t: seq<Seen>, s: Seen, c: Command)
    requires AtMostOnce(t, c) && forall i :: 0 <= i < |t| && Sends(t[i], c) ==> !Sends(s, c)
    ensures AtMostOnce(t + [s], c)
  {
    hide Sends;
  }

  lemma ExtendOrder(t: seq<Seen>, s: Seen)
    requires Ordered(t) && forall i :: 0 <= i < |t| ==> Rank(t[i].after) <= Rank(s.before)
    ensures Ordered(t + [s])
  {
    hide Rank;
  }

  lemma ExtendSafe(cfg: Config, t: seq<Seen>, l: Life, s: Seen, l': Life)
    requires Safe(cfg, t) && Remembers(l, t) && StepSafe(cfg, s) && FlagsKept(cfg, l, s, l')
    requires s.before == if l.started then l.phase else Prepare
    ensures Safe(cfg, t + [s])
  {
    hide ElapsedAtLeast, StepSafe, Sends, Ordered, AtMostOnce, ArmsSpaced, LastArm;
    ExtendArms(cfg, t, l, s);
    ExtendOnce(t, s, TakeoffCmd);
    ExtendOnce(t, s, LandCmd);
    ExtendOrder(t, s);
  }

  lemma ExtendMemory(cfg: Config, t: seq<Seen>, l: Life, s: Seen, l': Life)
    requires Remembers(l, t) && FlagsKept(cfg, l, s, l') && Rank(s.before) <= Rank(s.after)
    requires s.before == (if l.started then l.phase else Prepare) && l'.started && l'.phase == s.after != Idle
    ensures Remembers(l', t + [s])
  {
    hide ElapsedAtLeast;
    var t' := t + [s];
    forall i | LastArm(t', i, |t'|)
      ensures l'.armSent && l'.armAt == t'[i].input.now
    {
      if i < |t| {
        assert !Sends(t'[|t|], ArmCmd);
        assert forall h :: i < h < |t| ==> t[h] == t'[h];
        assert LastArm(t, i, |t|);
      }
    }
  }

  /** Every run of either controller, whatever the telemetry, the clock and the decisions of its
      own phases. */
  lemma {:induction false} EveryRunIsSafe(cfg: Config, ms: seq<Moment>)
    ensures Safe(cfg, Trace(cfg, ms)) && Remembers(LifeAfter(cfg, ms), Trace(cfg, ms))
  {
    hide Tick, Safe, StepSafe, Effect, FlagsKept;
    if ms == [] {
      EmptyRun(cfg);
    } else {
      var n := |ms| - 1;
      EveryRunIsSafe(cfg, ms[..n]);
      var m, l, t := ms[n], LifeAfter(cfg, ms[..n]), Trace(cfg, ms[..n]);
      TickEffect(cfg, l, m.input, m.execute, m.goHome);
      ExtendRun(cfg, t, l, m);
    }
  }

  lemma EmptyRun(cfg: Config)
    ensures Safe(cfg, []) && Remembers(NEW_LIFE, [])
  {}

  lemma ExtendRun(cfg: Config, t: seq<Seen>, life: Life, m: Moment)
    requires Safe(cfg, t) && Remembers(life, t)
    requires var l := Begun(life, m.input).(lastTick := m.input.now);
             Effect(cfg, l, m.input, Tick(cfg, life, m.input, m.execute, m.goHome))
    ensures var o := Tick(cfg, life, m.input, m.execute, m.goHome);
            var s := Seen(m.input, Begun(life, m.input).phase, o.life.phase, o.command);
            Safe(cfg, t + [s]) && Remembers(o.life, t + [s])
  {
    hide Tick, Safe, Remembers, StepSafe;
    var o := Tick(cfg, life, m.input, m.execute, m.goHome);
    var s := Seen(m.input, Begun(life, m.input).phase, o.life.phase, o.command);
    RankOf(cfg, s);
    ExtendSafe(cfg, t, life, s, o.life);
    ExtendMemory(cfg, t, life, s, o.life);
  }

  lemma RankOf(cfg: Config, s: Seen)
    requires StepSafe(cfg, s)
    ensures Rank(s.before) <= Rank(s.after)
  {}

  /** One more moment of a run. */
  lemma OneMoreMoment(cfg: Config, ms: seq<Moment>, m: Moment)
    ensures LifeAfter(cfg, ms + [m]) == Tick(cfg, LifeAfter(cfg, ms), m.input, m.execute, m.goHome).life
    ensures Safe(cfg, Trace(cfg, ms + [m]))
  {
    hide Tick, Safe, Trace;
    assert (ms + [m])[..|ms|] == ms;
    EveryRunIsSafe(cfg, ms + [m]);
  }

  /** Outside the execute phase the execute decision is not looked at. */
  lemma ExecuteDecisionUnused(cfg: Config, l: Life, i: Input, a: Decision, b: Decision, goHome: Decision)
    requires Begun(l, i).phase != Execute
    ensures Tick(cfg, l, i, a, goHome) == Tick(cfg, l, i, b, goHome)
  {
    hide TickPrepare, TickTakeoff, TickLand, TickComplete, Decided;
  }
}
