/** The countdown state of the overlay and what each timer event does to it,
    as values. `MainWindow` (main_window.dfy) holds the same state in fields and
    its event handlers are proved to follow these functions. */
module Countdown {
  import opened Wrappers
  import Config

  /** The opacity animation a hover change starts: `FadeOut` runs 1 to 0 when the
      pointer enters, `FadeIn` runs 0 to 1 when it leaves. */
  datatype Fade = FadeOut | FadeIn

  /** `remainingTime` in whole seconds, `isTimerPaused`, `isMouseOver`, `timer.IsEnabled`. */
  datatype Clock = Clock(remaining: int, paused: bool, mouseOver: bool, enabled: bool)

  /** What holds of the clock for a configured countdown of `seconds`: the time
      stays within [0, seconds], the timer runs exactly while time is left, and
      the pause flag mirrors the last hover report. */
  predicate ClockInv(c: Clock, seconds: int) {
    && seconds >= Config.MinTimerSeconds
    && 0 <= c.remaining <= seconds
    && (c.enabled <==> c.remaining > 0)
    && c.paused == c.mouseOver
  }

  /** The clock right after start-up. */
  function Initial(seconds: int): (c: Clock)
    requires seconds >= Config.MinTimerSeconds
    ensures ClockInv(c, seconds) && c.remaining == seconds && c.enabled && !c.paused
  {
    Clock(seconds, false, false, true)
  }

  /** `Timer_Tick`: the new clock and whether a capture cycle starts. */
  function Tick(c: Clock): (Clock, bool) {
    if c.paused then (c, false)
    else
      var rem := c.remaining - 1;
      if rem <= 0 then (c.(remaining := rem, enabled := false), true)
      else (c.(remaining := rem), false)
  }

  /** `HoverTimer_Tick` after the bounds test: the new clock and the fade started. */
  function Hover(c: Clock, inBounds: bool): (Clock, Option<Fade>) {
    if inBounds == c.mouseOver then (c, None)
    else if inBounds then (c.(mouseOver := true, paused := true), Some(FadeOut))
    else (c.(mouseOver := false, paused := false), Some(FadeIn))
  }

  /** `ResetTimer`'s effect on the clock. */
  function Reset(c: Clock, seconds: int): Clock {
    c.(remaining := seconds, enabled := true)
  }

  /** One delivered tick keeps the invariant; it lowers the time by exactly one
      unless paused, and a capture starts exactly when the time reaches 0. */
  lemma TickStep(c: Clock, seconds: int)
    requires ClockInv(c, seconds) && c.enabled
    ensures ClockInv(Tick(c).0, seconds)
    ensures c.paused ==> Tick(c) == (c, false)
    ensures !c.paused ==> Tick(c).0.remaining == c.remaining - 1
    ensures Tick(c).1 <==> !c.paused && Tick(c).0.remaining == 0
    ensures Tick(c).1 ==> !Tick(c).0.enabled
  {
  }

  /** Hover keeps the invariant, leaves the countdown alone, and is edge-triggered. */
  lemma HoverStep(c: Clock, seconds: int, inBounds: bool)
    requires ClockInv(c, seconds)
    ensures var (d, fade) := Hover(c, inBounds);
            && ClockInv(d, seconds)
            && d.remaining == c.remaining && d.enabled == c.enabled
            && d.paused == inBounds && d.mouseOver == inBounds
            && (fade == None <==> inBounds == c.mouseOver)
            && (fade == Some(FadeOut) <==> inBounds && !c.mouseOver)
            && (fade == Some(FadeIn) <==> !inBounds && c.mouseOver)
  {
  }

  /** A report repeated at once changes nothing and starts no second fade. */
  lemma HoverRepeatIsQuiet(c: Clock, inBounds: bool)
    ensures var d := Hover(c, inBounds).0;
            Hover(d, inBounds) == (d, None)
  {
  }

  /** Reset restores the full countdown, running, and leaves the pause flag. */
  lemma ResetStep(c: Clock, seconds: int)
    requires ClockInv(c, seconds)
    ensures var d := Reset(c, seconds);
            ClockInv(d, seconds) && d.remaining == seconds && d.enabled
            && d.paused == c.paused && d.mouseOver == c.mouseOver
  {
  }

  /** `n` timer periods: a tick is delivered only while the timer is enabled.
      Gives the final clock and the number of capture cycles started. */
  function RunTicks(c: Clock, n: nat): (Clock, nat)
    decreases n
  {
    if n == 0 || !c.enabled then (c, 0)
    else
      var (d, fired) := Tick(c);
      var (e, k) := RunTicks(d, n - 1);
      (e, k + if fired then 1 else 0)
  }

  /** Without a pause, `n` periods take min(n, remaining) seconds off; exactly one
      capture starts once the time has run out, at 0, and the timer then stays off. */
  lemma {:induction false} UnpausedRun(c: Clock, seconds: int, n: nat)
    requires ClockInv(c, seconds) && !c.paused
    ensures var (e, k) := RunTicks(c, n);
            && ClockInv(e, seconds) && e.paused == c.paused
            && e.remaining == (if n >= c.remaining then 0 else c.remaining - n)
            && k == (if 0 < c.remaining <= n then 1 else 0)
    decreases n
  {
    if n > 0 && c.enabled {
      TickStep(c, seconds);
      UnpausedRun(Tick(c).0, seconds, n - 1);
    }
  }

  /** While paused, no number of periods changes the clock or starts a capture. */
  lemma {:induction false} PausedRun(c: Clock, n: nat)
    requires c.paused
    ensures RunTicks(c, n) == (c, 0)
    decreases n
  {
    if n > 0 && c.enabled {
      PausedRun(c, n - 1);
    }
  }

  /** From a full countdown, capture starts after exactly `seconds` unpaused periods
      and not one period earlier. */
  lemma FullCountdown(seconds: int)
    requires seconds >= Config.MinTimerSeconds
    ensures RunTicks(Initial(seconds), seconds - 1).1 == 0
    ensures RunTicks(Initial(seconds), seconds - 1).0.remaining == 1
    ensures RunTicks(Initial(seconds), seconds).1 == 1
    ensures RunTicks(Initial(seconds), seconds).0.remaining == 0
  {
    UnpausedRun(Initial(seconds), seconds, seconds - 1);
    UnpausedRun(Initial(seconds), seconds, seconds);
  }
}
