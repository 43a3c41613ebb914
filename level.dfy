/**
 * LevelManager: the game controller. It maps the player's pulse condition to a game
 * speed and passes it to every speed-changing component, runs the pre-start countdown
 * whose final tick starts the level (unless the condition is CRITICAL), ends the game
 * when health runs out, and applies the projectiles' effects to health and score.
 */
module Level {
  import opened Wrappers
  import opened Biofeedback
  import Health
  import Spawning
  import Buttons
  import Countdown

  /** The biofeedback manager reference; NoManager is a null reference. */
  datatype ManagerRef =
    | NoManager
    | HeartRate(pulse: PulseManager)
    | AccelerationRate(accel: PulseAccelerationManager)

  function ManagerObjects(b: ManagerRef): set<object> {
    match b
    case NoManager => {}
    case HeartRate(m) => {m}
    case AccelerationRate(m) => {m}
  }

  /** The manager's current condition (`biofeedbackManager?.PulseCondition`). */
  function ConditionOf(b: ManagerRef): Option<PulseCondition>
    reads ManagerObjects(b)
  {
    match b
    case NoManager => None
    case HeartRate(m) => Some(m.condition)
    case AccelerationRate(m) => Some(m.condition)
  }

  function ConditionOrdinal(c: PulseCondition): int {
    match c
    case SLOW => 0
    case NORMAL => 1
    case FAST => 2
    case CRITICAL => 3
  }

  /**
   * ChangeGameSpeedAccordingToPulse's mapping: CRITICAL stops the game; otherwise the
   * game runs the faster the slower the pulse (SLOW to FAST, NORMAL to NORMAL, FAST to SLOW).
   */
  function SpeedFor(c: PulseCondition): (s: Spawning.Speed)
    ensures s == Spawning.STOP <==> c == CRITICAL
    ensures c != CRITICAL ==> Spawning.Ordinal(s) == 3 - ConditionOrdinal(c)
  {
    match c
    case CRITICAL => Spawning.STOP
    case SLOW => Spawning.FAST
    case NORMAL => Spawning.NORMAL
    case FAST => Spawning.SLOW
  }

  /** Distinct conditions give distinct speeds, so the condition can be read back from the speed. */
  lemma SpeedForInjective(a: PulseCondition, b: PulseCondition)
    requires SpeedFor(a) == SpeedFor(b)
    ensures a == b
  {
    if a != CRITICAL && b != CRITICAL {
      Spawning.OrdinalInjective(SpeedFor(a), SpeedFor(b));
    }
  }

  /** A faster pulse never gives a faster game. */
  lemma SpeedFallsAsPulseRises(a: PulseCondition, b: PulseCondition)
    requires a != CRITICAL && b != CRITICAL && ConditionOrdinal(a) < ConditionOrdinal(b)
    ensures Spawning.Ordinal(SpeedFor(a)) > Spawning.Ordinal(SpeedFor(b))
  {
  }

  /**
   * The pre-start countdown of `wait + 1` ticks passes wait, ..., 1, 0 to its callback:
   * exactly one tick, the last, carries 0, so an uncancelled countdown starts the level
   * exactly once and only at its end.
   */
  lemma {:induction false} CountdownStartsLevelOnce(wait: int)
    requires wait >= 0
    ensures var vs := Countdown.TickValues(wait + 1);
            && |vs| == wait + 1 && vs[wait] == 0
            && forall i :: 0 <= i < wait ==> vs[i] != 0
  {
    Countdown.TickValuesCountDown(wait + 1);
  }

  datatype LevelEvent = GameStarted | GameEnded

  /** The one callback a level countdown carries (CountDownBeforeStart). */
  const CountDownCallback: nat := 0

  class LevelManager {
    const hpManager: Health.HpManager
    /** `_hpCount`, 1 to 100. */
    const hpCount: int
    /** `_waitBeforeStart`, 0 to 20 seconds. */
    const waitBeforeStart: int
    const buttons: Buttons.MultipleButtons
    const components: seq<Spawning.ProjectileSpawner>
    const timerToken: Countdown.CancelToken
    var biofeedback: ManagerRef
    var isGameStart: bool
    /** The score shown on the score bar. */
    var score: int
    /** The notification text: a countdown value, or None when cleared. */
    var notice: Option<int>
    /** Every GameStarted and GameEnded raised, oldest first. */
    var events: seq<LevelEvent>
    /** Every countdown StartGame has begun. */
    var countdowns: seq<Countdown.CountDownExecutor>

    ghost predicate Valid()
      reads this, hpManager, hpManager.bar, hpManager.bar.hearts, buttons
    {
      && hpManager.Valid() && buttons.Valid()
      && 1 <= hpCount <= 100 && 0 <= waitBeforeStart <= 20
    }

    /** Start: score 0, empty notification, a fresh timer token; OutOfHP and ButtonsPressed
        are wired to EndGame and StartGame by the methods below. */
    constructor (hp: Health.HpManager, count: int, wait: int, gate: Buttons.MultipleButtons,
                 speedComponents: seq<Spawning.ProjectileSpawner>)
      requires hp.Valid() && gate.Valid() && 1 <= count <= 100 && 0 <= wait <= 20
      ensures Valid() && fresh(timerToken) && !timerToken.cancelled
      ensures hpManager == hp && hpCount == count && waitBeforeStart == wait
      ensures buttons == gate && components == speedComponents
      ensures biofeedback == NoManager && !isGameStart && score == 0 && notice == None
      ensures events == [] && countdowns == []
    {
      hpManager, hpCount, waitBeforeStart := hp, count, wait;
      buttons, components := gate, speedComponents;
      timerToken := new Countdown.CancelToken();
      biofeedback, isGameStart, score, notice := NoManager, false, 0, None;
      events, countdowns := [], [];
    }

    /**
     * The BiofeedbackManager setter: detaches from the previous manager first, then
     * attaches to the new one; a null manager throws after the detach.
     */
    method SetBiofeedbackManager(value: ManagerRef) returns (thrown: bool)
      modifies this`biofeedback, ManagerObjects(biofeedback), ManagerObjects(value)
      ensures biofeedback == value
      ensures thrown <==> value == NoManager
      ensures old(biofeedback).HeartRate? && old(biofeedback) != value ==>
                old(biofeedback).pulse.subscribers == if old(biofeedback.pulse.subscribers) > 0 then old(biofeedback.pulse.subscribers) - 1 else 0
      ensures old(biofeedback).AccelerationRate? && old(biofeedback) != value ==>
                old(biofeedback).accel.subscribers == if old(biofeedback.accel.subscribers) > 0 then old(biofeedback.accel.subscribers) - 1 else 0
      ensures value.HeartRate? && old(biofeedback) != value ==> value.pulse.subscribers == old(value.pulse.subscribers) + 1
      ensures value.AccelerationRate? && old(biofeedback) != value ==> value.accel.subscribers == old(value.accel.subscribers) + 1
      ensures value.HeartRate? && old(biofeedback) == value ==> value.pulse.subscribers == if old(value.pulse.subscribers) > 0 then old(value.pulse.subscribers) else 1
      ensures value.AccelerationRate? && old(biofeedback) == value ==> value.accel.subscribers == if old(value.accel.subscribers) > 0 then old(value.accel.subscribers) else 1
    {
      match biofeedback {
        case NoManager =>
        case HeartRate(m) => m.Unsubscribe();
        case AccelerationRate(m) => m.Unsubscribe();
      }
      biofeedback := value;
      thrown := false;
      match value {
        case NoManager => thrown := true;
        case HeartRate(m) => m.Subscribe();
        case AccelerationRate(m) => m.Subscribe();
      }
    }

    /**
     * What one ChangeSpeed(speed) call leaves in a component, compared with the state
     * before: STOP halts spawning and keeps the setting; any other speed keeps the
     * spawning flag and selects the setting for that speed when the table has one.
     */
    twostate predicate SpeedApplied(c: Spawning.ProjectileSpawner, speed: Spawning.Speed)
      reads c
    {
      && c.settings == old(c.settings)
      && (speed == Spawning.STOP ==> !c.isActive && c.current == old(c.current))
      && (speed != Spawning.STOP ==>
            && c.isActive == old(c.isActive)
            && c.current == if Spawning.SettingFrom(c.settings, speed, 0).Some? then Spawning.SettingFrom(c.settings, speed, 0) else old(c.current))
    }

    /** The component's speed state is as it was. */
    twostate predicate SpeedUntouched(c: Spawning.ProjectileSpawner)
      reads c
    {
      c.settings == old(c.settings) && c.isActive == old(c.isActive) && c.current == old(c.current)
    }

    /**
     * ChangeGameSpeed: passes the speed to every component in array order; each component
     * ends as one ChangeSpeed call leaves it, even when it is listed more than once.
     */
    method ChangeGameSpeed(speed: Spawning.Speed)
      requires forall c :: c in components ==> c.Valid()
      modifies components
      ensures forall c :: c in components ==> c.Valid() && SpeedApplied(c, speed)
    {
      var i := 0;
      while i < |components|
        invariant 0 <= i <= |components|
        invariant forall c :: c in components ==> c.Valid()
        invariant forall c :: c in components[..i] ==> SpeedApplied(c, speed)
        invariant forall c :: c in components && c !in components[..i] ==> SpeedUntouched(c)
      {
        var c := components[i];
        assert components[..i + 1] == components[..i] + [c];
        ghost var wasActive, wasCurrent := c.isActive, c.current;
        assert c in components[..i] ==> SpeedApplied(c, speed);
        assert c !in components[..i] ==> wasActive == old(c.isActive) && wasCurrent == old(c.current);
        c.ChangeSpeed(speed);
        assert SpeedApplied(c, speed);
        i := i + 1;
      }
      assert components[..i] == components;
    }

    /** ChangeGameSpeedAccordingToPulse: every component receives the condition's speed. */
    method ChangeGameSpeedAccordingToPulse(condition: PulseCondition)
      requires forall c :: c in components ==> c.Valid()
      modifies components
      ensures forall c :: c in components ==> c.Valid() && SpeedApplied(c, SpeedFor(condition))
    {
      ChangeGameSpeed(SpeedFor(condition));
    }

    /**
     * StartLevel: hides the buttons; a CRITICAL condition rejects the start and shows them
     * again with nothing else changed; otherwise health is set to the configured count,
     * the score to 0, and GameStarted is raised once. No manager does not reject.
     */
    method StartLevel()
      requires Valid()
      modifies this`score, this`events, buttons`hidden, buttons`active, hpManager, hpManager.bar, hpManager.bar.hearts
      ensures Valid()
      ensures buttons.active == []
      ensures ConditionOf(biofeedback) == Some(CRITICAL) ==>
                && !buttons.hidden && score == old(score) && events == old(events)
                && hpManager.currentHp == old(hpManager.currentHp)
      ensures ConditionOf(biofeedback) != Some(CRITICAL) ==>
                && buttons.hidden && score == 0 && events == old(events) + [GameStarted]
                && hpManager.maxHp == hpCount && hpManager.currentHp == hpCount
    {
      buttons.Hide();
      if ConditionOf(biofeedback) == Some(CRITICAL) {
        buttons.Show();
        return;
      }
      hpManager.SetHpCount(hpCount);
      score := 0;
      events := events + [GameStarted];
    }

    /** CountDownBeforeStart: shows each count; the count 0 clears the text and starts the level. */
    method CountDownBeforeStart(count: int)
      requires Valid()
      modifies this`notice, this`score, this`events, buttons`hidden, buttons`active, hpManager, hpManager.bar, hpManager.bar.hearts
      ensures Valid()
      ensures count != 0 ==> notice == Some(count) && events == old(events) && score == old(score)
                             && buttons.hidden == old(buttons.hidden) && buttons.active == old(buttons.active)
                             && hpManager.currentHp == old(hpManager.currentHp)
      ensures count == 0 ==> notice == None && buttons.active == []
      ensures count == 0 && ConditionOf(biofeedback) != Some(CRITICAL) ==>
                events == old(events) + [GameStarted] && hpManager.currentHp == hpCount && score == 0
      ensures count == 0 && ConditionOf(biofeedback) == Some(CRITICAL) ==>
                events == old(events) && !buttons.hidden
    {
      notice := Some(count);
      if count == 0 {
        notice := None;
        StartLevel();
      }
    }

    /**
     * StartGame: begins a countdown of waitBeforeStart + 1 one-second ticks whose callback is
     * CountDownBeforeStart; the first tick, carrying waitBeforeStart, is handled at once.
     */
    method StartGame()
      requires Valid()
      modifies this`countdowns, this`notice, this`score, this`events, buttons`hidden, buttons`active, hpManager, hpManager.bar, hpManager.bar.hearts
      ensures Valid()
      ensures |countdowns| == |old(countdowns)| + 1 && countdowns[..|old(countdowns)|] == old(countdowns)
      ensures var ex := countdowns[|old(countdowns)|];
              && fresh(ex) && ex.Valid() && !ex.aborted && ex.token == timerToken
              && ex.callback == Some(CountDownCallback) && ex.initial == waitBeforeStart + 1
              && ex.unit == Countdown.SECONDS && ex.period == 1.0
              && ex.delivered == [waitBeforeStart] && (ex.pending <==> waitBeforeStart > 0)
      ensures waitBeforeStart > 0 ==>
                && notice == Some(waitBeforeStart) && events == old(events) && score == old(score)
                && hpManager.currentHp == old(hpManager.currentHp)
      ensures waitBeforeStart == 0 && ConditionOf(biofeedback) != Some(CRITICAL) ==>
                && notice == None && events == old(events) + [GameStarted]
                && hpManager.currentHp == hpCount && score == 0
      ensures waitBeforeStart == 0 && ConditionOf(biofeedback) == Some(CRITICAL) ==>
                notice == None && events == old(events) && !buttons.hidden
    {
      var builder := new Countdown.AsyncCountDown.Setup(timerToken);
      builder := builder.Callback(Some(CountDownCallback));
      builder := builder.Count(waitBeforeStart + 1);
      builder := builder.PeriodBetweenCallbackIn(1.0, Countdown.SECONDS);
      var ex := builder.Start();
      countdowns := countdowns + [ex];
      CountDownBeforeStart(waitBeforeStart);
    }

    /**
     * The wait of countdown k ends: unless the timer token was cancelled it ticks, and the
     * value it delivers is handled by CountDownBeforeStart.
     */
    method CountdownElapsed(k: nat)
      requires Valid() && k < |countdowns|
      requires countdowns[k].Valid() && countdowns[k].pending && countdowns[k].callback == Some(CountDownCallback)
      modifies countdowns[k], this`notice, this`score, this`events, buttons`hidden, buttons`active, hpManager, hpManager.bar, hpManager.bar.hearts
      ensures Valid() && countdowns[k].Valid()
      ensures countdowns[k].token.cancelled ==>
                && notice == old(notice) && events == old(events) && score == old(score)
                && hpManager.currentHp == old(hpManager.currentHp)
      ensures !countdowns[k].token.cancelled ==>
                countdowns[k].count == old(countdowns[k].count) - 1
                && notice == if countdowns[k].count == 0 then None else Some(countdowns[k].count)
      ensures !countdowns[k].token.cancelled && countdowns[k].count != 0 ==>
                events == old(events) && score == old(score) && hpManager.currentHp == old(hpManager.currentHp)
      ensures !countdowns[k].token.cancelled && countdowns[k].count == 0 && ConditionOf(biofeedback) != Some(CRITICAL) ==>
                events == old(events) + [GameStarted] && hpManager.currentHp == hpCount && score == 0
      ensures !countdowns[k].token.cancelled && countdowns[k].count == 0 && ConditionOf(biofeedback) == Some(CRITICAL) ==>
                events == old(events) && !buttons.hidden
    {
      var ex := countdowns[k];
      ex.DelayElapsed();
      if !ex.token.cancelled {
        CountDownBeforeStart(ex.count);
      }
    }

    /** EndGame: clears the started flag, raises GameEnded and shows the buttons. */
    method EndGame()
      requires Valid()
      modifies this`isGameStart, this`events, buttons`hidden, buttons`active
      ensures Valid()
      ensures !isGameStart && events == old(events) + [GameEnded]
      ensures !buttons.hidden
      ensures old(buttons.hidden) ==> buttons.active == []
      ensures !old(buttons.hidden) ==> buttons.active == old(buttons.active)
    {
      isGameStart := false;
      events := events + [GameEnded];
      buttons.Show();
    }

    /** A press on a start button; once every button is pressed, StartGame runs. */
    method PressStartButton(b: Buttons.ButtonId)
      requires Valid() && b in buttons.buttons
      modifies this`countdowns, this`notice, this`score, this`events, buttons, hpManager, hpManager.bar, hpManager.bar.hearts
      ensures Valid()
      ensures |countdowns| == |old(countdowns)| + (if buttons.pressedEvents > old(buttons.pressedEvents) then 1 else 0)
    {
      var fired := buttons.ActivateStartButton(b);
      if fired {
        StartGame();
      }
    }

    /** DrainHealthPoint: damage through the immortality window; running out of health ends the game. */
    method DrainHealthPoint(count: int)
      requires Valid()
      modifies this`isGameStart, this`events, buttons`hidden, buttons`active, hpManager, hpManager.bar, hpManager.bar.hearts
      ensures Valid()
      ensures old(hpManager.immortalityTime) > 0.0 ==> hpManager.currentHp == old(hpManager.currentHp) && events == old(events)
      ensures old(hpManager.immortalityTime) <= 0.0 && 0 <= old(hpManager.currentHp) - count <= hpManager.maxHp
              && !(old(hpManager.bar.hearts) == null && old(hpManager.currentHp) - count > 0) ==>
                && hpManager.currentHp == old(hpManager.currentHp) - count
                && events == old(events) + (if hpManager.currentHp == 0 then [GameEnded] else [])
      ensures old(hpManager.immortalityTime) <= 0.0 ==>
                hpManager.isImmortal && hpManager.immortalityTime == hpManager.immortalityDuration
      ensures old(hpManager.immortalityTime) <= 0.0 && !(0 <= old(hpManager.currentHp) - count <= hpManager.maxHp) ==>
                hpManager.currentHp == old(hpManager.currentHp) && events == old(events)
    {
      var before := |hpManager.events|;
      var thrown := hpManager.SubtractHPFromCurrent(count);
      if |hpManager.events| > before && hpManager.events[|hpManager.events| - 1] == Health.OutOfHP {
        EndGame();
      }
    }

    /** AddHealthPoint: healing, rejected past the maximum; landing on 0 also ends the game. */
    method AddHealthPoint(count: int)
      requires Valid()
      modifies this`isGameStart, this`events, buttons`hidden, buttons`active, hpManager, hpManager.bar, hpManager.bar.hearts
      ensures Valid()
      ensures 0 <= old(hpManager.currentHp) + count <= hpManager.maxHp
              && !(old(hpManager.bar.hearts) == null && old(hpManager.currentHp) + count > 0) ==>
                && hpManager.currentHp == old(hpManager.currentHp) + count
                && events == old(events) + (if hpManager.currentHp == 0 then [GameEnded] else [])
      ensures !(0 <= old(hpManager.currentHp) + count <= hpManager.maxHp) ==>
                hpManager.currentHp == old(hpManager.currentHp) && events == old(events)
    {
      var before := |hpManager.events|;
      var thrown := hpManager.AddHPToCurrent(count);
      if |hpManager.events| > before && hpManager.events[|hpManager.events| - 1] == Health.OutOfHP {
        EndGame();
      }
    }

    /** AddScore: adds the points to the score bar. */
    method AddScore(count: int)
      modifies this`score
      ensures score == old(score) + count
    {
      score := score + count;
    }

    /** OnDestroy: cancels the timer, so no pending countdown ticks again, and detaches from the manager. */
    method OnDestroy()
      modifies timerToken, ManagerObjects(biofeedback)
      ensures timerToken.cancelled
      ensures biofeedback.HeartRate? ==> biofeedback.pulse.subscribers == if old(biofeedback.pulse.subscribers) > 0 then old(biofeedback.pulse.subscribers) - 1 else 0
      ensures biofeedback.AccelerationRate? ==> biofeedback.accel.subscribers == if old(biofeedback.accel.subscribers) > 0 then old(biofeedback.accel.subscribers) - 1 else 0
    {
      timerToken.Cancel();
      match biofeedback
      case NoManager =>
      case HeartRate(m) => m.Unsubscribe();
      case AccelerationRate(m) => m.Unsubscribe();
    }
  }
}
