# TransparentTimerApp: countdown-and-capture controller

A model of the logic inside a small always-on-top overlay window. The window
counts down from a configured number of seconds. It pauses while the pointer is
over it and restarts the countdown when clicked. At zero it takes a screenshot,
sends it with a prompt to the Gemini API and shows the reply. It also models the
configuration loader that supplies the countdown.

Modules, one per part of the source:

- `Config` (config.dfy): `AppConfig`, its defaults and `LoadConfig`. The file
  outcome is an input: missing, deserialised to null, deserialised to a
  configuration, or an exception. The default-file write outcome is an input too.
- `TimerDisplay` (timer_display.dfy): the `M:SS` text of `UpdateTimerDisplay`,
  with C# truncation and sign rules, and a parser that reads it back.
- `GeminiResponse` (gemini_response.dfy): a JSON tree, the
  `candidates[0].content.parts[0].text` navigation with `System.Text.Json`'s
  throwing rules, and the choice of the string `SendImageToGeminiAPI` returns.
- `Countdown` (countdown.dfy): the timer state as a value, with the effect of a
  tick, a hover report and a reset, and lemmas about runs of ticks.
- `Overlay` (main_window.dfy): the `MainWindow` class. Its fields are the ones
  the event handlers update. Its methods are proved to follow `Countdown` and to
  keep `0 <= remaining <= TimerSeconds`, with the timer enabled exactly while
  time is left.

Two behaviours of the code worth stating:

- Hover reports pause and unpause the countdown in every timer state. Nothing
  limits them to a running timer (MainWindow.xaml.cs:171-187).
- A JSON `null` at the text path makes `SendImageToGeminiAPI` return null. The
  panel's text is then null, modelled as `None`.

## Model

| member | source | states |
|---|---|---|
| `Config.NewAppConfig` | AppConfig.cs:10-12 | a fresh configuration has an empty key, the prompt "Describe what you see in this image" and 120 seconds, which is at least the 5-second minimum |
| `Config.ClampTimer` | AppConfig.cs:34-37 | a countdown below 5 becomes 5, one of 5 or more is kept, key and prompt are untouched |
| `Config.CreateDefaultConfigFile` | AppConfig.cs:55-73 | writing the default file is always attempted and reported as written exactly when the write raised nothing |
| `Config.LoadConfig` | AppConfig.cs:14-53 | every path returns at least 5 seconds; a deserialised configuration comes back clamped with key and prompt unchanged, and a blank key only warns; a missing or null document gives the defaults and a default-file write attempt; an exception gives the defaults and its message |
| `Config.WriteOutcomeIrrelevant` | AppConfig.cs:43-46 | whether the default file could be written never changes the configuration returned |
| `Config.ReloadIsStable` | AppConfig.cs:27-39 | loading back what the loader returned gives the same configuration |
| `TimerDisplay.Decimal` | MainWindow.xaml.cs:204-205 | the numeral of a number is a non-empty digit string without leading zeros |
| `TimerDisplay.ParseDecimalOfDecimal` | MainWindow.xaml.cs:204-205 | reading back the printed minutes gives the number printed |
| `TimerDisplay.ZeroPad2RoundTrip` | MainWindow.xaml.cs:204-206 | seconds below 60 print as exactly two digits that read back as those seconds |
| `TimerDisplay.FormatOfNonNegative` | MainWindow.xaml.cs:204-206 | for a time of 0 or more the text is whole minutes, a colon and exactly two second digits |
| `TimerDisplay.DisplayRoundTrip` | MainWindow.xaml.cs:202-207 | the display of any non-negative time parses back to that time |
| `TimerDisplay.DisplayInjective` | MainWindow.xaml.cs:202-207 | two different non-negative times never show the same text |
| `TimerDisplay.NoSignWhenNonNegative` | MainWindow.xaml.cs:204-206 | a non-negative time shows no minus sign |
| `TimerDisplay.FormatExamples` | MainWindow.xaml.cs:204-206 | 125 shows "2:05", 59 shows "0:59" and 0 shows "0:00" |
| `GeminiResponse.LookupFindsLast` | MainWindow.xaml.cs:456-461 | a property lookup yields a value exactly when that value is the last property of that name |
| `GeminiResponse.LookupIsLast` | MainWindow.xaml.cs:456-461 | a value the lookup yields is the last property of that name |
| `GeminiResponse.LastIsLookup` | MainWindow.xaml.cs:456-461 | the last property of a name is what the lookup yields |
| `GeminiResponse.LookupAbsent` | MainWindow.xaml.cs:456-461 | a property lookup finds nothing exactly when no property has that name |
| `GeminiResponse.NavigateIsResolve` | MainWindow.xaml.cs:454-464 | the short-circuit navigation equals a generic path resolver on candidates/0/content/parts/0/text followed by GetString |
| `GeminiResponse.ReplySelection` | MainWindow.xaml.cs:445-479 | a request exception gives "Error: msg"; a failure status gives "API Error: status - body"; an unparsable success body gives "Error: msg"; on a parsed body a string at the text path is returned, null gives null, a wrong node kind on the path gives "Failed to parse API response", and a missing step falls through to "API Error: status - body" |
| `GeminiResponse.ReplyIsModelText` | MainWindow.xaml.cs:456-464 | a success status with a string at the text path returns exactly that string |
| `Countdown.Initial` | MainWindow.xaml.cs:110-120 | start-up begins at the configured seconds with the timer running and unpaused, satisfying the invariant |
| `Countdown.TickStep` | MainWindow.xaml.cs:145-159 | a delivered tick keeps the invariant; paused it changes nothing and starts no capture; unpaused it lowers the time by exactly one; a capture starts exactly when the time reaches 0, and the timer is then stopped |
| `Countdown.HoverStep` | MainWindow.xaml.cs:171-187 | a hover report keeps the invariant and leaves time and timer alone; the pause flag follows the report; no fade starts for an unchanged report, a fade-out on entering, a fade-in on leaving |
| `Countdown.HoverRepeatIsQuiet` | MainWindow.xaml.cs:171-172 | repeating the same report at once changes nothing and starts no second fade |
| `Countdown.ResetStep` | MainWindow.xaml.cs:498-510 | reset keeps the invariant, restores the configured seconds, leaves the timer enabled and keeps the pause flag |
| `Countdown.UnpausedRun` | MainWindow.xaml.cs:145-159 | without a pause, n periods take min(n, remaining) seconds off, never below 0, and start exactly one capture once the time has run out |
| `Countdown.PausedRun` | MainWindow.xaml.cs:147 | while paused, any number of periods leaves the clock unchanged and starts no capture |
| `Countdown.FullCountdown` | MainWindow.xaml.cs:111-157 | from start-up, no capture after seconds-1 periods and exactly one after seconds periods, at time 0 |
| `Overlay.MainWindow.constructor` | MainWindow.xaml.cs:89-130 | the window loads the configuration, starts the full countdown, unpaused, and shows its time |
| `Overlay.MainWindow.UpdateTimerDisplay` | MainWindow.xaml.cs:202-207 | the timer text becomes the display of the remaining time |
| `Overlay.MainWindow.TakeScreenshotAndSendToGemini` | MainWindow.xaml.cs:209-246 | the API is queried exactly when the screenshot path is non-empty; an empty path shows "Failed to take screenshot"; the panel is shown and the window is opaque again either way |
| `Overlay.MainWindow.TimerTick` | MainWindow.xaml.cs:145-159 | the window follows `Countdown.Tick` and keeps its invariant; the timer text shows the remaining time; a capture starts exactly when an unpaused tick takes the last second; it then stops the timer and shows the cycle's text; otherwise the panel is untouched |
| `Overlay.MainWindow.HoverTimerTick` | MainWindow.xaml.cs:161-188 | the window follows `Countdown.Hover` in every timer state; pause and pointer flags become the report; a fade starts only on a change |
| `Overlay.MainWindow.ResetTimer` | MainWindow.xaml.cs:498-514 | the countdown is back at the configured seconds and running, and the timer text shows it; the timer is started only if it was stopped; the response panel is hidden |

## Left out

- Win32 interop is not modelled: the P/Invoke declarations, window style flags and cursor drawing (MainWindow.xaml.cs:20-44, 58-87, 132-143, 293-365) are foreign calls.
- Screenshot capture and saving (`TakeScreenshot`, `SaveScreenshotToFolder`) are GDI and file-system I/O. A capture is the path it returns, empty on failure. `config.SaveScreenshots` and `config.ScreenshotFolder` are not declared by `AppConfig`, so saving a copy is not modelled.
- Request building (JSON serialisation, base64) and the HTTP POST are library and network calls. An `Exchange` holds their outcome: an exception message, or the status code, how the status prints, the body and the parse of the body.
- JSON numbers are kept as their literal text; they are never inspected.
- The mouse-position bounds test compares doubles with the window size (MainWindow.xaml.cs:164-168). The in-bounds boolean is an input.
- Fade animations are recorded only as which fade started; opacity values in between, the 0.2 s duration and an animation that holds the opacity are not modelled. `opacity` is the value the capture cycle assigns.
- The capture cycle is atomic. The `async` interleaving of a reset with an in-flight cycle is not modelled; in the code a cycle that completes after a reset still shows the panel. The cycle's `catch` branch (message box, opacity 1) is not modelled, because every call inside it catches its own exceptions.
- Overlay.MainWindow.TimerTick: requires an enabled timer, because a `DispatcherTimer` raises `Tick` only while enabled.
- Timer scheduling (1 s and 100 ms periods) is not modelled: ticks and hover reports are method calls.
- `Window_MouseDown` is not modelled; it only calls `DragMove` and then `ResetTimer` on a left click.
- Message boxes and console messages are UI output. The loader's console reports appear only as fields of `LoadReport`.
- `TimeSpan` arithmetic is in whole seconds with integer truncation, not through the floating-point `TotalMinutes`.
- `AppConfig.timerSeconds` and the countdown are unbounded integers, where the source uses a 32-bit `int`. No wrap-around is lost: a `TimeSpan` of `int.MaxValue` seconds has `(int)TotalMinutes` of 35,791,394, far inside the range, and the countdown only decreases from the configured value.
- A JSON `null` for `ApiKey` or `Prompt` in the config file is not modelled: both are always strings.
- `TimerText.Text` is held as the time it was last rendered from. `MainWindow.TimerText` renders it with `TimerDisplay.Format`. Every write in the source renders the remaining time that way, so the strings are the same.
- The response panel's initial text and visibility come from the window markup (MainWindow.xaml), which is not part of this model. The constructor takes them as parameters.
