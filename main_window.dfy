/** The overlay window's countdown-and-capture controller (`MainWindow`).

    The fields are the ones its event handlers update in place. The screenshot and
    the request are external: a capture cycle takes the path `TakeScreenshot`
    returned (empty on failure) and the outcome of the exchange with the API. */
module Overlay {
  import opened Wrappers
  import opened Config
  import opened Countdown
  import TimerDisplay
  import GeminiResponse

  const ScreenshotFailed: string := "Failed to take screenshot"

  /** The text a capture cycle leaves in the response panel (`None` is C# null). */
  function CycleText(shot: string, x: GeminiResponse.Exchange): Option<string> {
    if |shot| == 0 then Some(ScreenshotFailed) else GeminiResponse.ApiReply(x)
  }

  class MainWindow {
    const config: AppConfig
    var remaining: int              // remainingTime, in whole seconds
    var paused: bool                // isTimerPaused
    var mouseOver: bool             // isMouseOver
    var timerEnabled: bool          // timer.IsEnabled
    var shownTime: int              // the time TimerText.Text was last rendered from
    var responseText: Option<string>  // GeminiResponseText.Text
    var responseVisible: bool       // GeminiResponseText.Visibility == Visible
    var opacity: real               // this.Opacity as set by the capture cycle

    function Clock(): Countdown.Clock
      reads this`remaining, this`paused, this`mouseOver, this`timerEnabled
    {
      Countdown.Clock(remaining, paused, mouseOver, timerEnabled)
    }

    /** TimerText.Text: every write to it renders a time with `UpdateTimerDisplay`. */
    function TimerText(): string
      reads this`shownTime
    {
      TimerDisplay.Format(shownTime)
    }

    ghost predicate Valid()
      reads this`remaining, this`paused, this`mouseOver, this`timerEnabled, this`shownTime
    {
      ClockInv(Clock(), config.timerSeconds) && shownTime == remaining
    }

    /** The constructor: loads the configuration and starts the full countdown.
        The response panel's initial text and visibility come from the window's
        markup and are passed in. */
    constructor (file: ConfigFile, writeError: Option<string>, panelText: string, panelVisible: bool)
      ensures Valid()
      ensures config == LoadConfig(file, writeError).config
      ensures Clock() == Initial(config.timerSeconds)
      ensures TimerText() == TimerDisplay.Format(config.timerSeconds)
      ensures responseText == Some(panelText) && responseVisible == panelVisible
      ensures opacity == 1.0
    {
      var loaded := LoadConfig(file, writeError).config;
      assert loaded.timerSeconds >= MinTimerSeconds;
      config := loaded;
      remaining := loaded.timerSeconds;
      paused, mouseOver := false, false;
      responseText, responseVisible := Some(panelText), panelVisible;
      opacity := 1.0;
      shownTime := loaded.timerSeconds;
      timerEnabled := true;
    }

    /** `UpdateTimerDisplay`. */
    method UpdateTimerDisplay()
      modifies this`shownTime
      ensures shownTime == remaining && TimerText() == TimerDisplay.Format(remaining)
    {
      shownTime := remaining;
    }

    /** `TakeScreenshotAndSendToGemini`, run to completion. The query is issued
        exactly when the screenshot succeeded; either way the panel is shown and the
        window is opaque again. */
    method TakeScreenshotAndSendToGemini(shot: string, x: GeminiResponse.Exchange)
      returns (queried: bool)
      modifies this`responseText, this`responseVisible, this`opacity
      ensures queried <==> |shot| > 0
      ensures responseText == CycleText(shot, x)
      ensures responseVisible && opacity == 1.0
    {
      opacity := 0.0;
      if |shot| == 0 {
        responseText := Some(ScreenshotFailed);
        responseVisible := true;
        opacity := 1.0;
        return false;
      }
      opacity := 1.0;
      var reply := GeminiResponse.ApiReply(x);
      responseText := reply;
      responseVisible := true;
      queried := true;
    }

    /** `Timer_Tick`, delivered while the timer is enabled. `shot` and `x` are what
        the capture cycle would meet if this tick starts one. */
    method TimerTick(shot: string, x: GeminiResponse.Exchange) returns (captured: bool, queried: bool)
      requires Valid() && timerEnabled
      modifies this`remaining, this`shownTime, this`timerEnabled
      modifies this`responseText, this`responseVisible, this`opacity
      ensures Valid()
      ensures (Clock(), captured) == Tick(old(Clock()))
      ensures captured <==> !old(paused) && old(remaining) == 1
      ensures TimerText() == TimerDisplay.Format(remaining)
      ensures captured ==> remaining == 0 && !timerEnabled
                           && responseText == CycleText(shot, x)
                           && responseVisible && opacity == 1.0
                           && (queried <==> |shot| > 0)
      ensures !captured ==> !queried && responseText == old(responseText)
                            && responseVisible == old(responseVisible) && opacity == old(opacity)
    {
      TickStep(Clock(), config.timerSeconds);
      if paused {
        return false, false;
      }
      remaining := remaining - 1;
      UpdateTimerDisplay();
      if remaining > 0 {
        return false, false;
      }
      timerEnabled := false;
      captured := true;
      queried := TakeScreenshotAndSendToGemini(shot, x);
    }

    /** `HoverTimer_Tick`, given whether the pointer is inside the window. It acts
        in every timer state. */
    method HoverTimerTick(inBounds: bool) returns (fade: Option<Fade>)
      requires Valid()
      modifies this`paused, this`mouseOver
      ensures Valid()
      ensures (Clock(), fade) == Hover(old(Clock()), inBounds)
      ensures paused == inBounds && mouseOver == inBounds
      ensures fade == None <==> inBounds == old(mouseOver)
    {
      HoverStep(Clock(), config.timerSeconds, inBounds);
      fade := None;
      if inBounds != mouseOver {
        mouseOver := inBounds;
        if mouseOver {
          paused := true;
          fade := Some(FadeOut);
        } else {
          paused := false;
          fade := Some(FadeIn);
        }
      }
    }

    /** `ResetTimer`: the full countdown again, the timer started only if it was
        stopped, the response panel hidden, the pause flag left as it was. */
    method ResetTimer() returns (started: bool)
      requires Valid()
      modifies this`remaining, this`shownTime, this`timerEnabled, this`responseVisible
      ensures Valid()
      ensures Clock() == Reset(old(Clock()), config.timerSeconds)
      ensures remaining == config.timerSeconds && timerEnabled
      ensures TimerText() == TimerDisplay.Format(config.timerSeconds)
      ensures started <==> !old(timerEnabled)
      ensures !responseVisible
    {
      ResetStep(Clock(), config.timerSeconds);
      remaining := config.timerSeconds;
      UpdateTimerDisplay();
      started := !timerEnabled;
      if started {
        timerEnabled := true;
      }
      responseVisible := false;
    }
  }
}
