/**
 * The widget's display state and its reducer `updateState`
 * (claude-code-meter.jsx, lines 6 and 20-33).
 *
 * The state holds the display mode and the last command result delivered by the
 * host: the command's standard output and its error value. Both are `None` until
 * the first command result arrives, as in the source's `initialState`, which only
 * sets `mode`.
 */
module DisplayState {
  import opened Wrappers

  /** How percentages are framed. Every test `mode === "remaining"` in the source treats
      any other value as "used", so two constructors cover all the behaviour. */
  datatype Mode = Remaining | Used

  const DEFAULT_MODE: Mode := Remaining

  /** The mode a click on the header badge switches to. */
  function Toggle(m: Mode): (r: Mode)
    ensures r != m
  {
    if m == Remaining then Used else Remaining
  }

  datatype State = State(mode: Mode, output: Option<string>, error: Option<string>)

  const INITIAL_STATE: State := State(DEFAULT_MODE, None, None)

  /** JavaScript truthiness of the error value the host delivers: absent and the empty
      string are falsy, every other string is truthy. */
  predicate Truthy(e: Option<string>) {
    e.Some? && e.value != ""
  }

  const TOGGLE_MODE: string := "TOGGLE_MODE"
  const COMMAND_RAN: string := "UB/COMMAND_RAN"

  /** An event object: its `type` string and the `output`/`error` fields a command
      result carries (absent on other events). */
  datatype Event = Event(kind: string, output: Option<string>, error: Option<string>)

  /** The event the header badge dispatches on click. */
  const TOGGLE_EVENT: Event := Event(TOGGLE_MODE, None, None)

  /** The event the host delivers after each run of the shell command. */
  function CommandRan(output: Option<string>, error: Option<string>): (e: Event)
    ensures e.kind == COMMAND_RAN && e.output == output && e.error == error
  {
    Event(COMMAND_RAN, output, error)
  }

  /** The reducer: a toggle flips the mode, a command result replaces output and error
      verbatim, and every other event leaves the state as it was. */
  function UpdateState(event: Event, prev: State): (next: State)
    ensures event.kind == TOGGLE_MODE ==>
      next.mode != prev.mode && next.output == prev.output && next.error == prev.error
    ensures event.kind == COMMAND_RAN ==>
      next.mode == prev.mode && next.output == event.output && next.error == event.error
    ensures event.kind != TOGGLE_MODE && event.kind != COMMAND_RAN ==> next == prev
  {
    if event.kind == TOGGLE_MODE then
      prev.(mode := Toggle(prev.mode))
    else if event.kind == COMMAND_RAN then
      prev.(output := event.output, error := event.error)
    else
      prev
  }

  /** Toggling twice restores the state exactly. */
  lemma ToggleInvolution(s: State)
    ensures UpdateState(TOGGLE_EVENT, UpdateState(TOGGLE_EVENT, s)) == s
  {
  }

  /** A toggle and a command result touch disjoint parts of the state, so their order
      does not matter. */
  lemma ToggleCommutesWithCommand(s: State, output: Option<string>, error: Option<string>)
    ensures UpdateState(TOGGLE_EVENT, UpdateState(CommandRan(output, error), s))
         == UpdateState(CommandRan(output, error), UpdateState(TOGGLE_EVENT, s))
  {
  }

  /** The host delivers events one at a time; `Run` applies a sequence of them in order. */
  function Run(events: seq<Event>, s: State): State
    decreases |events|
  {
    if events == [] then s else Run(events[1..], UpdateState(events[0], s))
  }

  /** Number of toggle events in a sequence. */
  function Toggles(events: seq<Event>): nat
    decreases |events|
  {
    if events == [] then 0
    else (if events[0].kind == TOGGLE_MODE then 1 else 0) + Toggles(events[1..])
  }

  /** Index of the last command result in `events`, if there is one. */
  function LastCommand(events: seq<Event>): (k: Option<nat>)
    ensures k.Some? ==> k.value < |events| && events[k.value].kind == COMMAND_RAN
    ensures k.Some? ==> forall j :: k.value < j < |events| ==> events[j].kind != COMMAND_RAN
    ensures k.None? ==> forall j :: 0 <= j < |events| ==> events[j].kind != COMMAND_RAN
    decreases |events|
  {
    if events == [] then None
    else if events[|events| - 1].kind == COMMAND_RAN then Some(|events| - 1)
    else LastCommand(events[..|events| - 1])
  }

  /** After any sequence of events the mode is the starting mode flipped once per toggle. */
  lemma {:induction false} RunMode(events: seq<Event>, s: State)
    ensures Run(events, s).mode == if Toggles(events) % 2 == 0 then s.mode else Toggle(s.mode)
    decreases |events|
  {
    if events != [] {
      RunMode(events[1..], UpdateState(events[0], s));
    }
  }

  /** Appending one event to a run applies it to the run's final state. */
  lemma {:induction false} RunSnoc(events: seq<Event>, e: Event, s: State)
    ensures Run(events + [e], s) == UpdateState(e, Run(events, s))
    decreases |events|
  {
    if events == [] {
      assert [e][1..] == [];
    } else {
      assert (events + [e])[1..] == events[1..] + [e];
      RunSnoc(events[1..], e, UpdateState(events[0], s));
    }
  }

  /** After any sequence of events the output and error are those of the last command
      result in it, or the starting ones when it holds none. */
  lemma {:induction false} RunLastCommand(events: seq<Event>, s: State)
    ensures var r := Run(events, s);
      match LastCommand(events)
      case Some(k) => r.output == events[k].output && r.error == events[k].error
      case None => r.output == s.output && r.error == s.error
    decreases |events|
  {
    if events != [] {
      var init := events[..|events| - 1];
      var e := events[|events| - 1];
      assert events == init + [e];
      RunSnoc(init, e, s);
      RunLastCommand(init, s);
    }
  }
}
