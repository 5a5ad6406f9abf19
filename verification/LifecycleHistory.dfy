/** The lifecycle told from outside: when each phase is left and where to, and when each command is
    sent, in terms of what was seen in the run so far -- no timers, no flags. */
module LifecycleHistory {
  import opened Wrappers
  import opened Lifecycle

  /** When the phase that the run is in was entered. */
  function Since(t: seq<Seen>): int
    requires t != []
  {
    var s := t[|t| - 1];
    if s.after != s.before || |t| == 1 then s.input.now else Since(t[..|t| - 1])
  }

  /** When a command was last sent. */
  function LastSent(t: seq<Seen>, c: Command): Option<int> {
    if t == [] then None
    else if Sends(t[|t| - 1], c) then Some(t[|t| - 1].input.now)
    else LastSent(t[..|t| - 1], c)
  }

  /** A command last sent then is due: it was never sent, or long enough ago. */
  predicate Due(sent: Option<int>, now: int, retry: real) {
    sent.None? || ElapsedAtLeast(sent.value, now, retry)
  }

  predicate Disarmed(i: Input) {
    i.armedValid && !i.armed
  }

  /** Arming was given up without knowing that the vehicle is disarmed. */
  predicate GivesUp(s: Seen) {
    s.before == Prepare && (s.after == GoHome || (s.after == Complete && !(s.input.finish && Disarmed(s.input))))
  }

  predicate GaveUp(t: seq<Seen>) {
    t != [] && (GaveUp(t[..|t| - 1]) || GivesUp(t[|t| - 1]))
  }

  // ---------------------------------------------------------------- one tick, from outside

  ghost predicate PrepareFollows(cfg: Config, sent: Option<int>, s: Seen, since: int) {
    var i := s.input;
    var cancelled, armed := i.finish && Disarmed(i), i.armedValid && i.armed;
    var assumed := cfg.armFallback > 0.0 && i.armAcked && ElapsedAtLeast(if sent.Some? then sent.value else 0, i.now, cfg.armFallback);
    var waiting, late := !cancelled && !armed && !assumed, ElapsedAtLeast(since, i.now, cfg.armTimeout);
    && s.after in {Prepare, Takeoff, GoHome, Complete, Abort}
    && (s.after == Takeoff <==> !cancelled && (armed || assumed))
    && (s.after == Complete <==> cancelled || (waiting && late && !Disarmed(i) && i.height <= 0.25))
    && (s.after == GoHome <==> waiting && late && !Disarmed(i) && i.height > 0.25)
    && (s.after == Abort <==> waiting && late && Disarmed(i))
    && s.command in {None, Some(ArmCmd)}
    && (Sends(s, ArmCmd) <==> waiting && !late && Due(sent, i.now, cfg.armRetry))
  }

  ghost predicate TakeoffFollows(cfg: Config, sent: bool, s: Seen) {
    var i := s.input;
    var climbing := !i.finish && i.height < cfg.gateHeight;
    && s.after in {Takeoff, Execute, Land, Complete}
    && (s.after == Land <==> i.finish && i.height > 0.25)
    && (s.after == Complete <==> i.finish && i.height <= 0.25)
    && (s.after == Execute <==> !i.finish && i.height >= cfg.gateHeight)
    && s.command in {None, Some(TakeoffCmd), Some(VelocityCmd)}
    && (Sends(s, TakeoffCmd) <==> climbing && !sent)
    && (Sends(s, VelocityCmd) <==> climbing && sent && i.height >= 0.5)
  }

  ghost predicate DecidedFollows(s: Seen, d: Decision, next: Phase) {
    && s.after == (if d == Leave then next else s.before)
    && s.command in {None, Some(VelocityCmd)}
    && (Sends(s, VelocityCmd) <==> d == Fly)
  }

  ghost predicate LandFollows(cfg: Config, sent: Option<int>, s: Seen) {
    var i := s.input;
    && s.after in {Land, Complete, Abort}
    && (s.after == Complete <==> i.height <= 0.25)
    && (s.after == Abort <==> i.height > 0.25 && sent.Some? && ElapsedAtLeast(sent.value, i.now, cfg.landTimeout))
    && s.command in {None, Some(LandCmd)}
    && (Sends(s, LandCmd) <==> i.height > 0.25 && sent.None?)
  }

  ghost predicate CompleteFollows(cfg: Config, sent: Option<int>, gaveUp: bool, s: Seen, since: int) {
    var i := s.input;
    var late := ElapsedAtLeast(since, i.now, cfg.disarmTimeout);
    && s.after in {Complete, Abort}
    && (s.after == Abort <==> if Disarmed(i) then gaveUp else late)
    && s.command in {None, Some(DisarmCmd)}
    && (Sends(s, DisarmCmd) <==> !Disarmed(i) && !late && Due(sent, i.now, cfg.disarmRetry))
  }

  /** What is seen next in a run, given what was seen before and what the controller decided. */
  ghost predicate Follows(cfg: Config, t: seq<Seen>, m: Moment, s: Seen) {
    var since := if t == [] then m.input.now else Since(t);
    && s.input == m.input && s.before == (if t == [] then Prepare else t[|t| - 1].after)
    && match s.before
       case Idle => false
       case Prepare => PrepareFollows(cfg, LastSent(t, ArmCmd), s, since)
       case Takeoff => TakeoffFollows(cfg, LastSent(t, TakeoffCmd).Some?, s)
       case Execute => DecidedFollows(s, m.execute, GoHome)
       case GoHome => DecidedFollows(s, m.goHome, Land)
       case Land => LandFollows(cfg, LastSent(t, LandCmd), s)
       case Complete => CompleteFollows(cfg, LastSent(t, DisarmCmd), GaveUp(t), s, since)
       case Abort => s.after == Abort && s.command == None
  }

  // ---------------------------------------------------------------- the fields tell the history

  predicate Tells(sent: bool, at: int, last: Option<int>) {
    (sent <==> last.Some?) && at == if last.Some? then last.value else 0
  }

  ghost predicate Linked(l: Life, t: seq<Seen>) {
    if t == [] then l == NEW_LIFE
    else
      && l.started && l.phase == t[|t| - 1].after != Idle
      && (l.phase != Abort ==> l.phaseStart == Since(t))
      && l.lastTick == t[|t| - 1].input.now && l.homeX == t[0].input.x && l.homeY == t[0].input.y
      && Tells(l.armSent, l.armAt, LastSent(t, ArmCmd))
      && (l.takeoffSent <==> LastSent(t, TakeoffCmd).Some?)
      && Tells(l.landSent, l.landAt, LastSent(t, LandCmd))
      && Tells(l.disarmSent, l.disarmAt, LastSent(t, DisarmCmd))
      && (l.aborting <==> GaveUp(t))
  }

  function SeenAt(l: Life, m: Moment, o: Outcome): Seen {
    Seen(m.input, Begun(l, m.input).phase, o.life.phase, o.command)
  }

  lemma HistoryPush(t: seq<Seen>, s: Seen, c: Command)
    ensures LastSent(t + [s], c) == (if Sends(s, c) then Some(s.input.now) else LastSent(t, c))
    ensures Since(t + [s]) == (if s.after != s.before || t == [] then s.input.now else Since(t))
    ensures GaveUp(t + [s]) <==> GaveUp(t) || GivesUp(s)
  {
    assert (t + [s])[..|t|] == t;
  }

  /** What a tick leaves in the fields. */
  ghost predicate Keeps(l: Life, s: Seen, l': Life) {
    && KeepsPlace(l, s, l') && KeepsSent(l, s, l')
  }

  ghost predicate KeepsPlace(l: Life, s: Seen, l': Life) {
    && l'.started && l'.phase == s.after != Idle && l'.lastTick == l.lastTick && l'.homeX == l.homeX && l'.homeY == l.homeY
    && (l'.phase != Abort ==> l'.phaseStart == if s.after != s.before then s.input.now else l.phaseStart)
    && l'.aborting == (l.aborting || GivesUp(s))
  }

  ghost predicate KeepsSent(l: Life, s: Seen, l': Life) {
    && l'.armSent == (l.armSent || Sends(s, ArmCmd)) && l'.armAt == (if Sends(s, ArmCmd) then s.input.now else l.armAt)
    && l'.takeoffSent == (l.takeoffSent || Sends(s, TakeoffCmd))
    && l'.landSent == (l.landSent || Sends(s, LandCmd)) && l'.landAt == (if Sends(s, LandCmd) then s.input.now else l.landAt)
    && l'.disarmSent == (l.disarmSent || Sends(s, DisarmCmd)) && l'.disarmAt == (if Sends(s, DisarmCmd) then s.input.now else l.disarmAt)
  }

  lemma PrepareTold(cfg: Config, l: Life, i: Input, sent: Option<int>)
    requires l.started && l.phase == Prepare && Tells(l.armSent, l.armAt, sent)
    ensures var o := TickPrepare(cfg, l, i); PrepareFollows(cfg, sent, Seen(i, Prepare, o.life.phase, o.command), l.phaseStart)
  {
    hide ElapsedAtLeast, Enter, AbortRecovery;
    EnterMoves(l, Takeoff, i.now);
    EnterMoves(l, Complete, i.now);
    RecoveryMoves(l, i);
  }

  /** A change of phase, and of nothing that was sent. */
  ghost predicate Moved(l: Life, p: Phase, now: int, l': Life) {
    && l'.started == l.started && l'.phase == p && l'.lastTick == l.lastTick && l'.homeX == l.homeX && l'.homeY == l.homeY
    && l'.phaseStart == now && l'.armSent == l.armSent && l'.armAt == l.armAt && l'.takeoffSent == l.takeoffSent
    && l'.landSent == l.landSent && l'.landAt == l.landAt && l'.disarmSent == l.disarmSent && l'.disarmAt == l.disarmAt
  }

  lemma EnterMoves(l: Life, p: Phase, now: int)
    ensures Moved(l, p, now, Enter(l, p, now)) && Enter(l, p, now).aborting == l.aborting
  {}

  lemma RecoveryMoves(l: Life, i: Input)
    ensures Moved(l, if i.height > 0.25 then GoHome else Complete, i.now, AbortRecovery(l, i)) && AbortRecovery(l, i).aborting
  {}

  /** What a prepare tick makes of the life. */
  lemma PrepareOutcome(cfg: Config, l: Life, i: Input)
    ensures var o := TickPrepare(cfg, l, i);
            var cancelled := i.finish && Disarmed(i);
            || (o == Outcome(l, None))
            || (o == Outcome(l.(armSent := true, armAt := i.now), Some(ArmCmd)))
            || (o == Outcome(l.(phase := Abort), None))
            || (o == Outcome(Enter(l, Takeoff, i.now), None))
            || (o == Outcome(Enter(l, Complete, i.now), None) && cancelled)
            || (o == Outcome(AbortRecovery(l, i), None) && !cancelled)
  {
    hide ElapsedAtLeast, Enter, AbortRecovery;
  }

  lemma PrepareKeeps(cfg: Config, l: Life, i: Input)
    requires l.started && l.phase == Prepare
    ensures var o := TickPrepare(cfg, l, i); Keeps(l, Seen(i, Prepare, o.life.phase, o.command), o.life)
  {
    hide TickPrepare, Enter, AbortRecovery;
    PrepareOutcome(cfg, l, i);
    EnterMoves(l, Takeoff, i.now);
    EnterMoves(l, Complete, i.now);
    RecoveryMoves(l, i);
  }

  lemma TakeoffTold(cfg: Config, l: Life, i: Input)
    requires l.started && l.phase == Takeoff
    ensures var o := TickTakeoff(cfg, l, i); TakeoffFollows(cfg, l.takeoffSent, Seen(i, Takeoff, o.life.phase, o.command))
  {
    hide ElapsedAtLeast;
  }

  lemma TakeoffKeeps(cfg: Config, l: Life, i: Input)
    requires l.started && l.phase == Takeoff
    ensures var o := TickTakeoff(cfg, l, i); Keeps(l, Seen(i, Takeoff, o.life.phase, o.command), o.life)
  {
    hide ElapsedAtLeast;
  }

  lemma LandTold(cfg: Config, l: Life, i: Input, sent: Option<int>)
    requires l.started && l.phase == Land && Tells(l.landSent, l.landAt, sent)
    ensures var o := TickLand(cfg, l, i); LandFollows(cfg, sent, Seen(i, Land, o.life.phase, o.command))
  {
    hide ElapsedAtLeast;
  }

  lemma LandKeeps(cfg: Config, l: Life, i: Input)
    requires l.started && l.phase == Land
    ensures var o := TickLand(cfg, l, i); Keeps(l, Seen(i, Land, o.life.phase, o.command), o.life)
  {
    hide ElapsedAtLeast;
  }

  lemma CompleteTold(cfg: Config, l: Life, i: Input, sent: Option<int>)
    requires l.started && l.phase == Complete && Tells(l.disarmSent, l.disarmAt, sent)
    ensures var o := TickComplete(cfg, l, i); CompleteFollows(cfg, sent, l.aborting, Seen(i, Complete, o.life.phase, o.command), l.phaseStart)
  {
    hide ElapsedAtLeast;
  }

  lemma CompleteKeeps(cfg: Config, l: Life, i: Input)
    requires l.started && l.phase == Complete
    ensures var o := TickComplete(cfg, l, i); Keeps(l, Seen(i, Complete, o.life.phase, o.command), o.life)
  {
    hide ElapsedAtLeast;
  }

  lemma DecidedTold(l: Life, i: Input, d: Decision, next: Phase)
    requires l.started && ((l.phase == Execute && next == GoHome) || (l.phase == GoHome && next == Land))
    ensures var o := Decided(l, i, d, next); DecidedFollows(Seen(i, l.phase, o.life.phase, o.command), d, next)
  {}

  lemma DecidedKeeps(l: Life, i: Input, d: Decision, next: Phase)
    requires l.started && ((l.phase == Execute && next == GoHome) || (l.phase == GoHome && next == Land))
    ensures var o := Decided(l, i, d, next); Keeps(l, Seen(i, l.phase, o.life.phase, o.command), o.life)
  {}

  lemma TickFollows(cfg: Config, life: Life, t: seq<Seen>, m: Moment)
    requires Linked(life, t)
    ensures var o := Tick(cfg, life, m.input, m.execute, m.goHome);
            Follows(cfg, t, m, SeenAt(life, m, o)) && Keeps(Begun(life, m.input).(lastTick := m.input.now), SeenAt(life, m, o), o.life)
  {
    hide LastSent, GaveUp, Since, TickPrepare, TickTakeoff, TickLand, TickComplete, Decided,
         PrepareFollows, TakeoffFollows, LandFollows, CompleteFollows, DecidedFollows, KeepsPlace, KeepsSent;
    var l := Begun(life, m.input).(lastTick := m.input.now);
    var since := if t == [] then m.input.now else Since(t);
    NothingSentYet(t);
    match l.phase {
      case Prepare => PrepareTold(cfg, l, m.input, LastSent(t, ArmCmd)); PrepareKeeps(cfg, l, m.input);
      case Takeoff => TakeoffTold(cfg, l, m.input); TakeoffKeeps(cfg, l, m.input);
      case Execute => DecidedTold(l, m.input, m.execute, GoHome); DecidedKeeps(l, m.input, m.execute, GoHome);
      case GoHome => DecidedTold(l, m.input, m.goHome, Land); DecidedKeeps(l, m.input, m.goHome, Land);
      case Land => LandTold(cfg, l, m.input, LastSent(t, LandCmd)); LandKeeps(cfg, l, m.input);
      case Complete => CompleteTold(cfg, l, m.input, LastSent(t, DisarmCmd)); CompleteKeeps(cfg, l, m.input);
      case Abort => AbortKeeps(l, m.input);
    }
  }

  lemma AbortKeeps(l: Life, i: Input)
    requires l.started && l.phase == Abort
    ensures Keeps(l, Seen(i, Abort, Abort, None), l)
  {}

  lemma NothingSentYet(t: seq<Seen>)
    ensures t == [] ==> (forall c :: LastSent(t, c) == None) && !GaveUp(t)
  {}

  lemma LinkedAfter(life: Life, t: seq<Seen>, m: Moment, s: Seen, l': Life)
    requires Linked(life, t) && s.input == m.input && s.before == Begun(life, m.input).phase
    requires Keeps(Begun(life, m.input).(lastTick := m.input.now), s, l')
    ensures Linked(l', t + [s])
  {
    hide LastSent, GaveUp, Since, Sends, GivesUp;
    NothingSentYet(t);
    HistoryPush(t, s, ArmCmd);
    HistoryPush(t, s, TakeoffCmd);
    HistoryPush(t, s, LandCmd);
    HistoryPush(t, s, DisarmCmd);
  }

  /** Every run of either controller, tick by tick: each phase is left exactly when, and to where,
      the history says, and each command is sent exactly when the history says. */
  lemma {:induction false} EveryRunFollows(cfg: Config, ms: seq<Moment>)
    ensures |Trace(cfg, ms)| == |ms| && Linked(LifeAfter(cfg, ms), Trace(cfg, ms))
    ensures forall i :: 0 <= i < |ms| ==> Follows(cfg, Trace(cfg, ms)[..i], ms[i], Trace(cfg, ms)[i])
  {
    hide Tick, Follows, Linked, Keeps;
    if ms == [] {
      NothingYet(cfg);
    } else {
      var n := |ms| - 1;
      EveryRunFollows(cfg, ms[..n]);
      var t, life := Trace(cfg, ms[..n]), LifeAfter(cfg, ms[..n]);
      var o := Tick(cfg, life, ms[n].input, ms[n].execute, ms[n].goHome);
      TickFollows(cfg, life, t, ms[n]);
      LinkedAfter(life, t, ms[n], SeenAt(life, ms[n], o), o.life);
      assert Trace(cfg, ms) == t + [SeenAt(life, ms[n], o)];
      forall i | 0 <= i < |ms| ensures Follows(cfg, Trace(cfg, ms)[..i], ms[i], Trace(cfg, ms)[i]) {
        if i < n {
          assert Trace(cfg, ms)[..i] == t[..i] && ms[..n][i] == ms[i];
        } else {
          assert Trace(cfg, ms)[..n] == t;
        }
      }
    }
  }

  /** The run so far follows its history tick by tick. */
  ghost predicate Told(cfg: Config, ms: seq<Moment>) {
    |Trace(cfg, ms)| == |ms| && forall i :: 0 <= i < |ms| ==> Follows(cfg, Trace(cfg, ms)[..i], ms[i], Trace(cfg, ms)[i])
  }

  /** Input i is within r metres, over ground, of input `home`. */
  predicate Near(home: Input, i: Input, r: real) {
    (home.x - i.x) * (home.x - i.x) + (home.y - i.y) * (home.y - i.y) <= r * r
  }

  /** One more moment: the run is still told by its history; home is where the first tick was; and
      the controller's two decisions decide its two phases. */
  lemma TellsMoment(cfg: Config, ms: seq<Moment>, m: Moment)
    ensures Told(cfg, ms + [m]) && |Trace(cfg, ms + [m])| == |ms| + 1
    ensures var l, l' := Begun(LifeAfter(cfg, ms), m.input), LifeAfter(cfg, ms + [m]);
            && l.homeX == Trace(cfg, ms + [m])[0].input.x && l.homeY == Trace(cfg, ms + [m])[0].input.y
            && (l.phase == Execute ==> l'.phase == if m.execute == Leave then GoHome else Execute)
            && (l.phase == GoHome ==> l'.phase == if m.goHome == Leave then Land else GoHome)
  {
    hide Tick, Follows, Linked, Keeps, Trace, LifeAfter;
    EveryRunFollows(cfg, ms);
    EveryRunFollows(cfg, ms + [m]);
    MomentPush(cfg, ms, m);
    TickFollows(cfg, LifeAfter(cfg, ms), Trace(cfg, ms), m);
    HomeKept(cfg, LifeAfter(cfg, ms), Trace(cfg, ms), m);
  }

  lemma MomentPush(cfg: Config, ms: seq<Moment>, m: Moment)
    ensures var o := Tick(cfg, LifeAfter(cfg, ms), m.input, m.execute, m.goHome);
            LifeAfter(cfg, ms + [m]) == o.life && Trace(cfg, ms + [m]) == Trace(cfg, ms) + [SeenAt(LifeAfter(cfg, ms), m, o)]
  {
    hide Tick;
    assert (ms + [m])[..|ms|] == ms;
  }

  lemma HomeKept(cfg: Config, life: Life, t: seq<Seen>, m: Moment)
    requires Linked(life, t)
    ensures var o := Tick(cfg, life, m.input, m.execute, m.goHome);
            var l, t' := Begun(life, m.input), t + [SeenAt(life, m, o)];
            && l.homeX == t'[0].input.x && l.homeY == t'[0].input.y
            && (l.phase == Execute ==> o.life.phase == if m.execute == Leave then GoHome else Execute)
            && (l.phase == GoHome ==> o.life.phase == if m.goHome == Leave then Land else GoHome)
  {
    hide LastSent, GaveUp, Since, TickPrepare, TickTakeoff, TickLand, TickComplete;
  }

  lemma NothingYet(cfg: Config)
    ensures Linked(LifeAfter(cfg, []), Trace(cfg, []))
  {}

  /** Over every run the mission is complete -- and the motors may be disarmed -- only on the ground,
      or when it was called off before arming. */
  lemma CompleteOnlyOnGround(cfg: Config, ms: seq<Moment>, i: nat)
    requires i < |ms|
    ensures |Trace(cfg, ms)| == |ms|
    ensures var s := Trace(cfg, ms)[i];
            s.before != Complete && s.after == Complete ==>
              s.input.height <= 0.25 || (s.before == Prepare && s.input.finish && s.input.armedValid && !s.input.armed)
  {
    hide LastSent, Since, GaveUp, Trace, ElapsedAtLeast;
    EveryRunFollows(cfg, ms);
    assert Follows(cfg, Trace(cfg, ms)[..i], ms[i], Trace(cfg, ms)[i]);
  }

  /** A second is a thousand million nanoseconds, and intervals add up. */
  lemma SecondsAreBillions(a: int, b: int, c: int)
    ensures Seconds(a, a + 1000000000) == 1.0
    ensures Seconds(a, b) + Seconds(b, c) == Seconds(a, c)
    ensures forall s: real :: ElapsedAtLeast(a, b, s) <==> (b - a) as real >= s * 1000000000.0
  {}
}
