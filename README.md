# claude-code-meter, modelled in Dafny

claude-code-meter is a desktop widget that shows how much of an AI coding
assistant's five-hour and seven-day usage windows is left (or used), as a
percentage, a 20-cell bar and a countdown to the window's reset. The host
runtime runs a shell command every 30 seconds and hands its output to the
widget; a click on the header badge switches between "remaining" and "used".

This project models the widget's deterministic core, all of it in
`claude-code-meter.jsx`, as pure Dafny functions over datatypes (the source
is pure: its reducer returns fresh objects and nothing else mutates state):

- `display_state.dfy` (module `DisplayState`): the display state
  `{mode, output, error}`, the event objects and the reducer `updateState`,
  plus `Run`, the host applying events one after another.
- `decimal.dfy` (module `Decimal`): `String(n)` on whole numbers and the
  two-digit `pad`, proved against `DecimalValue`, which reads a numeral back.
- `countdown.dfy` (module `Countdown`): `formatTimeLeft` (the hour, minute
  and second decomposition, the `HH:MM:SS` and `Nd HH:MM` forms) and the
  absent branch of `formatResetTime`.
- `colors.dfy` (module `Colors`): `getBarColor`'s tiers.
- `bar.dfy` (module `Bar`): `Math.round`, the lit-cell count and the cells of
  `UsageBar`.
- `render.dfy` (module `Render`): `UsageRow` and the branch selection of
  `render`, with two example payloads worked through.
- `wrappers.dfy` (module `Wrappers`): an `Option` type for absent values.

Inputs the widget gets from its environment are parameters: the current
time `now` (milliseconds), the reset instants already converted from their
ISO-8601 strings to milliseconds, the result of `JSON.parse` (a function
from the output text to either a failed parse or the payload fields the
widget reads), and the platform's local clock label for a reset instant.

The model follows the code as written:

- the code never clamps `utilization` into 0 to 100, so no function of the model clamps utilization;
  the bounds lemmas take the range as a precondition;
- the code has no pace or elapsed-fraction calculation, so none is modelled;
- a command result stores `output` and `error` verbatim (line 30) rather
  than a tagged failure, and the error panel is chosen by the truthiness of
  the stored `error`;
- the payload's `error` field is tested for truthiness, not for `true`;
- there are exactly two windows, `five_hour` and `seven_day`.

## Model

| member | source | states |
|---|---|---|
| `DisplayState.Toggle` | claude-code-meter.jsx:26 | the badge always switches to the other mode |
| `DisplayState.Truthy` | claude-code-meter.jsx:143 | the `if (error)` test: an error value is truthy iff it is present and non-empty |
| `DisplayState.UpdateState` | claude-code-meter.jsx:22-33 | a toggle flips the mode and keeps output and error; a command result keeps the mode and stores output and error verbatim; any other event type returns the state unchanged |
| `DisplayState.ToggleInvolution` | claude-code-meter.jsx:23-28 | two toggles restore the state exactly |
| `DisplayState.ToggleCommutesWithCommand` | claude-code-meter.jsx:23-31 | a toggle and a command result give the same state in either order |
| `DisplayState.RunSnoc` | claude-code-meter.jsx:22-33 | applying one more event to a run applies the reducer to the run's final state |
| `DisplayState.RunMode` | claude-code-meter.jsx:23-28 | after any event sequence the mode is the start mode flipped once per toggle event (parity of the toggle count) |
| `DisplayState.RunLastCommand` | claude-code-meter.jsx:29-32 | after any event sequence output and error are those of the last command result, or the starting ones if there was none |
| `Decimal.NatToString` | claude-code-meter.jsx:61-63 | `String(n)` is a non-empty digit string that reads back as `n`, has no leading zero, one digit iff `n < 10`, at most two below 100 |
| `Decimal.NatToStringInjective` | claude-code-meter.jsx:61-63 | distinct numbers get distinct numerals |
| `Decimal.LeadingZero` | claude-code-meter.jsx:56 | prefixing `'0'` keeps a numeral's value |
| `Decimal.Pad` | claude-code-meter.jsx:56 | `pad(n)` is all digits, reads back as `n`, is at least 2 characters, exactly 2 below 100, and is `String(n)` from 10 on |
| `Countdown.Decompose` | claude-code-meter.jsx:53-55 | minutes and seconds are below 60 and `h*3600000 + m*60000 + s*1000 <= diff < ... + 1000` |
| `Countdown.DecomposeSeconds` | claude-code-meter.jsx:53-55 | the seconds the fields stand for are the whole seconds of `diff` |
| `Countdown.DecomposeUnique` | claude-code-meter.jsx:53-55 | any hours/minutes/seconds with minutes and seconds below 60 bracketing `diff` to the second are the decomposition |
| `Countdown.DecomposeMonotone` | claude-code-meter.jsx:49-55 | a smaller difference (a later `now`) never shows more seconds left |
| `Countdown.ClockText` | claude-code-meter.jsx:57 | the `HH:MM:SS` text is made only of digits and `:` |
| `Countdown.DaysText` | claude-code-meter.jsx:61 | the `Nd HH:MM` text is made only of digits, `d`, space and `:` |
| `Countdown.FormatTimeLeft` | claude-code-meter.jsx:47-64 | absent reset gives `--:--:--`/`no data`; an elapsed reset gives `00:00:00`/`resetting...`; a known reset never yields any character but digits, `:`, `d` and space |
| `Countdown.NeverNegative` | claude-code-meter.jsx:52-61 | a countdown for a known reset instant never contains a minus sign |
| `Countdown.HoursBelowDay` | claude-code-meter.jsx:53-58 | the hour count is below 24 exactly when less than a day is left |
| `Countdown.ClockTextFields` | claude-code-meter.jsx:57 | with fields below 100 the clock text is 8 characters with the padded fields at 0-2, 3-5, 6-8 |
| `Countdown.DaysTextFields` | claude-code-meter.jsx:61 | the days text is the day numeral, `d `, two-digit hours, `:`, two-digit minutes |
| `Countdown.ClockForm` | claude-code-meter.jsx:53-63 | below one day the countdown is fixed-width `HH:MM:SS` whose fields read back as the decomposition, bracketing the time left to the second; the caption is `resets in {h}h {m}m` |
| `Countdown.DaysForm` | claude-code-meter.jsx:58-61 | from one day on the countdown starts with the unpadded day numeral and reads back as at least one day, hours of the day below 24 with `days*24 + remH = h`, and the minutes; seconds are dropped |
| `Countdown.FormatResetTime` | claude-code-meter.jsx:66-70 | absent reset gives `--:--`, otherwise the platform clock label of the instant |
| `Colors.GetBarColor` | claude-code-meter.jsx:72-80 | red iff (remaining and `<= 10`) or (used and `>= 90`); green iff remaining and `> 25`; amber iff remaining in (10, 25] or used below 90 |
| `Colors.UsedNeverGreen` | claude-code-meter.jsx:78-79 | "used" mode never yields green |
| `Colors.GetBarColorMonotone` | claude-code-meter.jsx:72-80 | more left is never more alarming in "remaining" mode; more used never less alarming in "used" mode |
| `Bar.Round` | claude-code-meter.jsx:83 | `Math.round(x)` is the integer `r` with `r - 1/2 <= x < r + 1/2` (ties up) |
| `Bar.RoundUnique` | claude-code-meter.jsx:83 | that integer is unique |
| `Bar.RoundMonotone` | claude-code-meter.jsx:83 | rounding is monotone |
| `Bar.Filled` | claude-code-meter.jsx:83 | `filled` is the integer nearest to `displayValue / 100 * segments`, ties up |
| `Bar.Cells` | claude-code-meter.jsx:87 | `Array.from({length: segments})` makes exactly `segments` cells |
| `Bar.UsageBar` | claude-code-meter.jsx:82-102 | the bar has `segments` cells, cell `i` is lit iff `i < filled`, coloured by `getBarColor` |
| `Bar.CellsLitPrefix` | claude-code-meter.jsx:87-95 | lit cells form a left prefix and their number is `filled` cut into 0..segments, for any `filled` |
| `Bar.FilledBounds` | claude-code-meter.jsx:83 | for a display value in [0, 100], `0 <= filled <= segments` |
| `Bar.FilledMonotone` | claude-code-meter.jsx:83 | `filled` is monotone in the display value |
| `Bar.FilledExamples` | claude-code-meter.jsx:83 | 12.5% of 20 cells rounds up to 3; 97.5% already fills the bar, 97.4% does not; 0% and 100% give 0 and 20 |
| `Bar.UsageBarLitCount` | claude-code-meter.jsx:83-95 | whenever the display value is in [0, 100], exactly `filled` cells are lit, all at the left |
| `Render.ParseOutput` | claude-code-meter.jsx:151-160 | an unset output never parses; a set one is what `JSON.parse` makes of it |
| `Render.DisplayValue` | claude-code-meter.jsx:105 | "remaining" shows `100 - utilization`, "used" shows `utilization` |
| `Render.Suffix` | claude-code-meter.jsx:109 | the suffix is "left" exactly in "remaining" mode and "used" exactly in "used" mode |
| `Render.UsageRow` | claude-code-meter.jsx:104-133 | the row shows `Math.round` of `100 - utilization` (remaining) or `utilization` (used) with "left"/"used"; it is red iff utilization >= 90 and green iff remaining mode and utilization < 75, in the bar's colour; for utilization in [0, 100] the percentage is in [0, 100] and the bar lights `filled` cells; for any utilization cell `i` is lit iff `i < filled`; an absent reset shows `--:--:--` and `--:--`, a known one the countdown and clock label of that instant |
| `Render.ModeLabel` | claude-code-meter.jsx:172 | the badge reads "remaining" exactly in "remaining" mode and "used" exactly in "used" mode |
| `Render.SwitchHint` | claude-code-meter.jsx:232 | the badge's tooltip names the other mode: `Click to switch to "used" mode` in remaining mode, `"remaining"` in used mode |
| `Render.Render` | claude-code-meter.jsx:142-172 | a truthy error shows the fetch-error panel; otherwise a failed parse shows "Loading..." |
| `Render.RenderBranches` | claude-code-meter.jsx:142-171 | each of the four branches (error flag, failed parse, payload error, rows) shows its own view and each view comes only from its branch; both red panels come exactly from the two error branches |
| `Render.ErrorBeforeParse` | claude-code-meter.jsx:143-153 | with a truthy error the view does not depend on the parser |
| `Render.MissingWindowDefaults` | claude-code-meter.jsx:170-245 | in the rows branch both rows are drawn with the state's mode label and the toggle event on the badge; a present window's row is `UsageRow` of that window's utilization and reset instant; a missing window's row is `UsageRow` of 0% utilization and no reset instant: 100% left in green with all 20 cells lit, or 0% used in amber with none lit, `--:--:--` and `--:--` |
| `Render.RedIffNinetyUsed` | claude-code-meter.jsx:105-106 | in both modes a row is red exactly when utilization is 90 or more |
| `Render.BadgeClickSwitchesMode` | claude-code-meter.jsx:172-234 | dispatching the badge's event and rendering again shows the other mode's label and suffix |
| `Render.CommandErrorShowsErrorPanel` | claude-code-meter.jsx:143-149 | a command result with a truthy error shows the fetch-error panel whatever its output |
| `Render.InitialShowsLoading` | claude-code-meter.jsx:151-160 | the initial state, with no output yet, shows "Loading..." |
| `Render.PayloadErrorShowsAuthPanel` | claude-code-meter.jsx:162-168 | a payload with a truthy `error` shows the credentials panel whatever else it holds |
| `Render.MalformedShowsLoading` | claude-code-meter.jsx:151-160 | output that does not parse shows "Loading...", not an error panel |
| `Render.SampleRemaining` | claude-code-meter.jsx:239-245 | 5% and 40% used, resetting in 2 hours and 3 days, show 95% and 60% left in green with `02:00:00` and `3d 00:00` |
| `Render.SampleUsed` | claude-code-meter.jsx:239-245 | the same payload in "used" mode shows 5% and 40% used, both amber |

## Left out

- The shell `command` (keychain lookup, token extraction, HTTP call; lines 12-18): external I/O run by the host.
- `refreshFrequency` and the 30-second polling (lines 7-10): scheduling belongs to the host runtime.
- `JSON.parse` and ISO-8601 date parsing (lines 50, 153): foreign library calls; their results are inputs.
- `new Date()` (line 49): the clock is the parameter `now`.
- `toLocaleTimeString` with locale and time zone (line 69): the platform's label is a parameter; only the absent branch of `formatResetTime` is fixed.
- Styles, the hex strings of the three colour tiers and their glows, `className`, and the hover handlers that mutate `e.target.style` (lines 230-231): presentation without statable logic.
- Floating-point behaviour of JavaScript numbers: utilization and rounding are over reals.
- JSON values that are not objects: `JSON.parse` of `null` would make `data.error` throw, and a number or string would fall through to the default windows; the parser parameter returns only a failure or an object's fields.
- A window object whose `utilization` is missing or not numeric (the source computes `NaN`; a `null` reads as 0 and a numeric string is coerced), and an unparseable date (a `NaN` countdown).
- Mode strings other than "remaining" and "used": the source toggles any other value to "remaining"; the two-constructor mode cannot hold one.
- State fields other than `mode`, `output` and `error`, which the source's spread would carry along.
- `Render.Render`: its own contract states only the first two branches; `Render.RenderBranches` states which branch is taken for every input, and `Render.MissingWindowDefaults` states that in the rows branch each present window's row is `UsageRow` of that window and each missing window's row is `UsageRow` of the 0%, no-reset default.
