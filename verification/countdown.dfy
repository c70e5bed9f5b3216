/** The stage countdown: `startStageTimer` in both scene scripts.

    A looping 10 ms timer event lowers `remaining` by 0.01 s on each run. When it
    reaches zero or less it is clamped to zero, the event removes itself and the
    expiry callback runs (`nextGame` in common3.js, `endGame` in common.js). The model
    keeps `remaining` in whole hundredths of a second, so one tick subtracts 1. */
module Countdown {
  import opened Config

  /** The countdown event: what `remaining` holds and whether the event is still scheduled. */
  datatype Timer = Timer(remaining: int, active: bool)

  /** No countdown scheduled. */
  const Idle: Timer := Timer(0, false)

  /** The value `startStageTimer` begins from, in hundredths of a second. */
  function StartHundredths(v: Variant, stage: nat): (h: nat)
    requires stage <= MaxStage
    ensures v == Levels ==> h == TimerDurationSeconds * 100
    ensures v == Classic && stage < 4 ==> h == 1000 + 100 * stage
    ensures v == Classic && stage == 4 ==> h == 2000
    ensures h >= TimerDurationSeconds * 100
  {
    match v
    case Levels => TimerDurationSeconds * 100
    case Classic =>
      // `{ 0: 10, 1: 11, 2: 12, 3: 13, 4: 20 }[stage]`
      if stage == 0 then 1000
      else if stage == 1 then 1100
      else if stage == 2 then 1200
      else if stage == 3 then 1300
      else 2000
  }

  /** A freshly scheduled countdown. */
  function StartTimer(v: Variant, stage: nat): Timer
    requires stage <= MaxStage
  {
    Timer(StartHundredths(v, stage), true)
  }

  /** common3.js starts from `TIMER_DURATION` whatever the stage; common.js gives
      every better stage strictly more time. */
  lemma StartValues(s: nat, t: nat)
    requires s <= MaxStage && t <= MaxStage
    ensures StartHundredths(Levels, s) == TimerDurationSeconds * 100
    ensures s < t ==> StartHundredths(Classic, s) < StartHundredths(Classic, t)
  {
  }

  datatype TickResult = TickResult(timer: Timer, expired: bool)

  /** One run of the timer callback. A removed event never runs again. */
  function Tick(t: Timer): (r: TickResult)
    ensures !t.active ==> r == TickResult(t, false)
    ensures t.active ==> r.timer.remaining >= 0
    ensures t.active ==> r.timer.remaining <= t.remaining - 1 || r.timer.remaining == 0
    ensures t.active && t.remaining > 1 ==> r == TickResult(Timer(t.remaining - 1, true), false)
    ensures r.expired <==> t.active && !r.timer.active
    ensures t.active ==> (r.expired <==> t.remaining <= 1)
    ensures r.expired ==> r.timer.remaining == 0
  {
    if !t.active then TickResult(t, false)
    else if t.remaining - 1 <= 0 then TickResult(Timer(0, false), true)
    else TickResult(Timer(t.remaining - 1, true), false)
  }

  /** The timer after `n` scheduled runs, with how often the expiry callback ran. */
  datatype Run = Run(timer: Timer, fired: nat)

  function RunTicks(t: Timer, n: nat): (r: Run)
    ensures !t.active ==> r == Run(t, 0)
    ensures r.fired <= 1
    ensures r.fired == 1 ==> t.active && r.timer == Idle
    ensures t.remaining >= 0 ==> r.timer.remaining >= 0
    decreases n
  {
    if n == 0 then Run(t, 0)
    else
      var step := Tick(t);
      var rest := RunTicks(step.timer, n - 1);
      Run(rest.timer, rest.fired + (if step.expired then 1 else 0))
  }

  /** Started at `R` hundredths, the countdown is still running with `R - n` left
      after `n < R` ticks, and after `R` or more ticks it is at zero, removed, and has
      fired its expiry callback exactly once. */
  lemma {:induction false} ExpiresOnceAfterStartTicks(start: nat, n: nat)
    requires start >= 1
    ensures n < start ==> RunTicks(Timer(start, true), n) == Run(Timer(start - n, true), 0)
    ensures n >= start ==> RunTicks(Timer(start, true), n) == Run(Idle, 1)
    decreases n
  {
    if n > 0 {
      if start == 1 {
        assert Tick(Timer(1, true)) == TickResult(Idle, true);
        assert RunTicks(Idle, n - 1) == Run(Idle, 0);
      } else {
        assert Tick(Timer(start, true)) == TickResult(Timer(start - 1, true), false);
        ExpiresOnceAfterStartTicks(start - 1, n - 1);
      }
    }
  }
}
