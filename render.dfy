/**
 * `UsageRow` and the widget's `render` (claude-code-meter.jsx, lines 104-133 and
 * 142-248): which panel is shown, and what each usage row shows.
 *
 * `JSON.parse` is a parameter, `parse`, giving either `None` (it threw) or the fields
 * the widget reads from the object it returned. The platform's local clock label for
 * a reset instant is the parameter `clockLabel`, and the current time is `now`.
 */
module Render {
  import opened Wrappers
  import opened DisplayState
  import opened Decimal
  import opened Countdown
  import opened Colors
  import opened Bar

  /** One usage window of the payload: `utilization`, and `resets_at` already converted
      to milliseconds (`None` for null or absent). */
  datatype Window = Window(utilization: real, resetsAt: Option<int>)

  /** What the widget reads from a parsed payload: the truthiness of `error`, and the
      `five_hour` and `seven_day` windows when present. */
  datatype Payload = Payload(error: bool, fiveHour: Option<Window>, sevenDay: Option<Window>)

  /** The stand-in for an absent window (lines 170-171). */
  const DEFAULT_WINDOW: Window := Window(0.0, None)

  /** `JSON.parse(output)`. An `output` that was never set is `undefined`, which
      `JSON.parse` rejects, so it counts as a failed parse. */
  function ParseOutput(output: Option<string>, parse: string -> Option<Payload>): (p: Option<Payload>)
    ensures output.None? ==> p.None?
    ensures output.Some? ==> p == parse(output.value)
  {
    match output
    case None => None
    case Some(text) => parse(text)
  }

  /** `displayValue`: the share left in "remaining" mode, the share used otherwise. */
  function DisplayValue(mode: Mode, utilization: real): (v: real)
    ensures mode == Remaining ==> v + utilization == 100.0
    ensures mode == Used ==> v == utilization
  {
    if mode == Remaining then 100.0 - utilization else utilization
  }

  function Suffix(mode: Mode): (r: string)
    ensures r == "left" <==> mode == Remaining
    ensures r == "used" <==> mode == Used
  {
    match mode
    case Remaining =>
      assert "left"[0] != "used"[0];
      "left"
    case Used => "used"
  }

  /** One usage row as drawn. */
  datatype Row = Row(
    heading: string,       // the row's label
    percent: int,          // Math.round(displayValue), shown before "%"
    suffix: string,        // "left" or "used"
    tier: Tier,            // colour of the percentage and the bar
    bar: BarView,
    resetTime: string,     // "resets {resetTime}"
    timeStr: string)       // the countdown

  /** `UsageRow`: the rounded percentage with "left" or "used", coloured red exactly
      when 90% or more is used; in range, a percentage from 0 to 100 and a bar with
      `filled` lit cells; without a reset instant, the two placeholders. */
  function UsageRow(heading: string, utilization: real, resetsAt: Option<int>, mode: Mode,
                    now: int, clockLabel: int -> string): (row: Row)
    ensures row.heading == heading
    ensures row.suffix == (if mode == Remaining then "left" else "used")
    ensures row.percent == Round(if mode == Remaining then 100.0 - utilization else utilization)
    ensures row.tier == Red <==> utilization >= 90.0
    ensures row.tier == Green <==> mode == Remaining && utilization < 75.0
    ensures row.bar.tier == row.tier && |row.bar.lit| == SEGMENTS
    ensures forall i :: 0 <= i < SEGMENTS ==>
      (row.bar.lit[i] <==> i < Filled(DisplayValue(mode, utilization), SEGMENTS))
    ensures 0.0 <= utilization <= 100.0 ==>
      && 0 <= row.percent <= 100
      && CountLit(row.bar.lit) == Filled(DisplayValue(mode, utilization), SEGMENTS)
    ensures resetsAt.None? ==> row.timeStr == "--:--:--" && row.resetTime == "--:--"
    ensures resetsAt.Some? ==>
      row.timeStr == FormatTimeLeft(resetsAt, now).timeStr && row.resetTime == clockLabel(resetsAt.value)
  {
    var displayValue := DisplayValue(mode, utilization);
    UsageBarLitCount(displayValue, mode, SEGMENTS);
    Row(heading, Round(displayValue), Suffix(mode), GetBarColor(displayValue, mode),
        UsageBar(displayValue, mode, SEGMENTS), FormatResetTime(resetsAt, clockLabel),
        FormatTimeLeft(resetsAt, now).timeStr)
  }

  /** Red and amber panels carry a message and nothing else. */
  datatype Tone = Alert | Muted

  datatype View =
    | Panel(tone: Tone, text: string)
    | Meter(modeLabel: string, switchHint: string, onBadgeClick: Event,
            fiveHour: Row, sevenDay: Row)

  const FETCH_ERROR_PANEL: View := Panel(Alert, "Error fetching usage data")
  const LOADING_PANEL: View := Panel(Muted, "Loading...")
  const AUTH_FAILED_PANEL: View := Panel(Alert, "Auth failed - check Claude Code credentials")

  const FIVE_HOUR_HEADING: string := "5-hour window"
  const SEVEN_DAY_HEADING: string := "7-day window"

  function ModeLabel(mode: Mode): (r: string)
    ensures r == "remaining" <==> mode == Remaining
    ensures r == "used" <==> mode == Used
  {
    match mode
    case Remaining =>
      assert "remaining"[0] != "used"[0];
      "remaining"
    case Used => "used"
  }

  /** The badge's tooltip names the mode a click switches to. */
  function SwitchHint(mode: Mode): (r: string)
    ensures mode == Remaining ==> r == "Click to switch to \"used\" mode"
    ensures mode == Used ==> r == "Click to switch to \"remaining\" mode"
  {
    "Click to switch to \"" + ModeLabel(Toggle(mode)) + "\" mode"
  }

  /** `render`: a truthy error wins before anything is parsed; then a failed parse shows
      "Loading..."; then a truthy `error` in the payload shows the credentials panel;
      otherwise both rows are drawn, each absent window standing in as 0% with no
      reset instant. */
  function Render(s: State, parse: string -> Option<Payload>, now: int,
                  clockLabel: int -> string): (v: View)
    ensures Truthy(s.error) ==> v == FETCH_ERROR_PANEL
    ensures !Truthy(s.error) && ParseOutput(s.output, parse).None? ==> v == LOADING_PANEL
  {
    if Truthy(s.error) then FETCH_ERROR_PANEL
    else
      match ParseOutput(s.output, parse)
      case None => LOADING_PANEL
      case Some(data) =>
        if data.error then AUTH_FAILED_PANEL
        else
          var fiveHour := data.fiveHour.GetOr(DEFAULT_WINDOW);
          var sevenDay := data.sevenDay.GetOr(DEFAULT_WINDOW);
          Meter(ModeLabel(s.mode), SwitchHint(s.mode), TOGGLE_EVENT,
                UsageRow(FIVE_HOUR_HEADING, fiveHour.utilization, fiveHour.resetsAt, s.mode, now, clockLabel),
                UsageRow(SEVEN_DAY_HEADING, sevenDay.utilization, sevenDay.resetsAt, s.mode, now, clockLabel))
  }

  /** The branch `render` takes, as a reference to check it against. */
  datatype Branch = FetchError | Loading | AuthFailed | Rows

  function BranchOf(s: State, parse: string -> Option<Payload>): Branch {
    if Truthy(s.error) then FetchError
    else if ParseOutput(s.output, parse).None? then Loading
    else if ParseOutput(s.output, parse).value.error then AuthFailed
    else Rows
  }

  /** Each branch shows its own view, and each view comes only from its branch. */
  lemma RenderBranches(s: State, parse: string -> Option<Payload>, now: int, clockLabel: int -> string)
    ensures var v := Render(s, parse, now, clockLabel);
      && (v == FETCH_ERROR_PANEL <==> BranchOf(s, parse) == FetchError)
      && (v == LOADING_PANEL <==> BranchOf(s, parse) == Loading)
      && (v == AUTH_FAILED_PANEL <==> BranchOf(s, parse) == AuthFailed)
      && (v.Meter? <==> BranchOf(s, parse) == Rows)
      && (v.Panel? && v.tone == Alert <==> BranchOf(s, parse) in {FetchError, AuthFailed})
  {
  }

  /** The error flag is decided before parsing: with a truthy error, what the parser
      would say makes no difference. */
  lemma ErrorBeforeParse(s: State, parse1: string -> Option<Payload>, parse2: string -> Option<Payload>,
                         now: int, clockLabel: int -> string)
    requires Truthy(s.error)
    ensures Render(s, parse1, now, clockLabel) == Render(s, parse2, now, clockLabel)
  {
  }

  /** Rows are always both drawn, in the state's mode: a window present in the payload
      is drawn from its own utilization and reset instant, and a missing one is the row
      of 0% utilization with no reset instant: 100% left in green with every cell lit,
      or 0% used in amber with none lit, the "--:--:--" countdown and the "--:--" reset
      time. */
  lemma MissingWindowDefaults(s: State, parse: string -> Option<Payload>, now: int, clockLabel: int -> string)
    requires BranchOf(s, parse) == Rows
    ensures var v := Render(s, parse, now, clockLabel);
      var data := ParseOutput(s.output, parse).value;
      && v.Meter?
      && v.modeLabel == ModeLabel(s.mode) && v.onBadgeClick == TOGGLE_EVENT
      && v.fiveHour.heading == FIVE_HOUR_HEADING && v.sevenDay.heading == SEVEN_DAY_HEADING
      && (data.fiveHour.Some? ==>
            v.fiveHour == UsageRow(FIVE_HOUR_HEADING, data.fiveHour.value.utilization,
                                   data.fiveHour.value.resetsAt, s.mode, now, clockLabel))
      && (data.sevenDay.Some? ==>
            v.sevenDay == UsageRow(SEVEN_DAY_HEADING, data.sevenDay.value.utilization,
                                   data.sevenDay.value.resetsAt, s.mode, now, clockLabel))
      && (data.fiveHour.None? ==>
            && v.fiveHour == UsageRow(FIVE_HOUR_HEADING, DEFAULT_WINDOW.utilization,
                                      DEFAULT_WINDOW.resetsAt, s.mode, now, clockLabel)
            && v.fiveHour.percent == (if s.mode == Remaining then 100 else 0)
            && v.fiveHour.tier == (if s.mode == Remaining then Green else Amber)
            && CountLit(v.fiveHour.bar.lit) == (if s.mode == Remaining then SEGMENTS else 0)
            && v.fiveHour.timeStr == "--:--:--" && v.fiveHour.resetTime == "--:--")
      && (data.sevenDay.None? ==>
            && v.sevenDay == UsageRow(SEVEN_DAY_HEADING, DEFAULT_WINDOW.utilization,
                                      DEFAULT_WINDOW.resetsAt, s.mode, now, clockLabel)
            && v.sevenDay.percent == (if s.mode == Remaining then 100 else 0)
            && v.sevenDay.tier == (if s.mode == Remaining then Green else Amber)
            && CountLit(v.sevenDay.bar.lit) == (if s.mode == Remaining then SEGMENTS else 0)
            && v.sevenDay.timeStr == "--:--:--" && v.sevenDay.resetTime == "--:--")
  {
    RoundUnique(100.0, 100);
    RoundUnique(0.0, 0);
    FilledExamples();
  }

  /** Both modes turn a row red exactly when 90% or more of the window is used. */
  lemma RedIffNinetyUsed(mode: Mode, utilization: real)
    ensures GetBarColor(DisplayValue(mode, utilization), mode) == Red <==> utilization >= 90.0
  {
  }

  /** Clicking the badge of a drawn meter and drawing again shows the other mode's label
      and suffix, and the same events and parser otherwise. */
  lemma BadgeClickSwitchesMode(s: State, parse: string -> Option<Payload>, now: int, clockLabel: int -> string)
    requires Render(s, parse, now, clockLabel).Meter?
    ensures var v := Render(s, parse, now, clockLabel);
      var w := Render(UpdateState(v.onBadgeClick, s), parse, now, clockLabel);
      && w.Meter?
      && w.modeLabel == ModeLabel(Toggle(s.mode)) && w.modeLabel != v.modeLabel
      && w.fiveHour.suffix == Suffix(Toggle(s.mode)) && w.fiveHour.suffix != v.fiveHour.suffix
      && v.switchHint == SwitchHint(s.mode)
  {
  }

  /** A command result with a truthy error shows the fetch-error panel whatever its
      output holds, even valid JSON. */
  lemma CommandErrorShowsErrorPanel(s: State, output: Option<string>, error: Option<string>,
                                    parse: string -> Option<Payload>, now: int, clockLabel: int -> string)
    requires Truthy(error)
    ensures Render(UpdateState(CommandRan(output, error), s), parse, now, clockLabel) == FETCH_ERROR_PANEL
  {
  }

  /** Before any command result arrives the widget shows "Loading...". */
  lemma InitialShowsLoading(parse: string -> Option<Payload>, now: int, clockLabel: int -> string)
    ensures Render(INITIAL_STATE, parse, now, clockLabel) == LOADING_PANEL
  {
  }

  /** A payload with 5% of the five-hour window used, resetting in two hours, and 40% of
      the seven-day window used, resetting in three days. */
  function SamplePayload(now: int): Payload {
    Payload(false, Some(Window(5.0, Some(now + 2 * MS_PER_HOUR))),
                   Some(Window(40.0, Some(now + 72 * MS_PER_HOUR))))
  }

  /** In "remaining" mode the sample shows 95% left in green with a `02:00:00`
      countdown, and 60% left with a `3d 00:00` countdown. */
  lemma SampleRemaining(output: string, now: int, clockLabel: int -> string)
    ensures var v := Render(State(Remaining, Some(output), None), _ => Some(SamplePayload(now)), now, clockLabel);
      && v.Meter? && v.modeLabel == "remaining"
      && v.fiveHour.percent == 95 && v.fiveHour.suffix == "left" && v.fiveHour.tier == Green
      && v.fiveHour.timeStr == "02:00:00"
      && v.sevenDay.percent == 60 && v.sevenDay.tier == Green
      && v.sevenDay.timeStr == "3d 00:00"
  {
    RoundUnique(95.0, 95);
    RoundUnique(60.0, 60);
    assert Decompose(2 * MS_PER_HOUR) == Hms(2, 0, 0);
    assert Decompose(72 * MS_PER_HOUR) == Hms(72, 0, 0);
    assert Pad(2) == "02" && Pad(0) == "00" && NatToString(3) == "3";
  }

  /** In "used" mode the same sample shows 5% and 40% used, both amber. */
  lemma SampleUsed(output: string, now: int, clockLabel: int -> string)
    ensures var v := Render(State(Used, Some(output), None), _ => Some(SamplePayload(now)), now, clockLabel);
      && v.Meter? && v.modeLabel == "used"
      && v.fiveHour.percent == 5 && v.fiveHour.suffix == "used" && v.fiveHour.tier == Amber
      && v.sevenDay.percent == 40 && v.sevenDay.tier == Amber
  {
    RoundUnique(5.0, 5);
    RoundUnique(40.0, 40);
  }

  /** An `error` field in the payload shows the credentials panel whatever else it holds. */
  lemma PayloadErrorShowsAuthPanel(s: State, data: Payload, now: int, clockLabel: int -> string)
    requires !Truthy(s.error) && s.output.Some? && data.error
    ensures Render(s, _ => Some(data), now, clockLabel) == AUTH_FAILED_PANEL
  {
  }

  /** Output that does not parse shows "Loading...", not an error panel. */
  lemma MalformedShowsLoading(s: State, now: int, clockLabel: int -> string)
    requires !Truthy(s.error)
    ensures Render(s, _ => None, now, clockLabel) == LOADING_PANEL
  {
  }
}
