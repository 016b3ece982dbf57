/**
 * Threshold colouring `getBarColor` (claude-code-meter.jsx, lines 72-80).
 *
 * The source returns one of three colour triples (red, amber, green); the model
 * names the three tiers and leaves out their hex strings.
 */
module Colors {
  import opened DisplayState

  datatype Tier = Red | Amber | Green

  /** How calm a tier is: red 0, amber 1, green 2. */
  function Calm(t: Tier): nat {
    match t
    case Red => 0
    case Amber => 1
    case Green => 2
  }

  /** `getBarColor`: in "remaining" mode red up to 10, amber up to 25 and green above;
      in "used" mode red from 90 on and amber below. The value is not clamped. */
  function GetBarColor(displayValue: real, mode: Mode): (c: Tier)
    ensures c == Red <==> (if mode == Remaining then displayValue <= 10.0 else displayValue >= 90.0)
    ensures c == Green <==> mode == Remaining && displayValue > 25.0
    ensures c == Amber <==> (if mode == Remaining then 10.0 < displayValue <= 25.0 else displayValue < 90.0)
  {
    if mode == Remaining then
      if displayValue <= 10.0 then Red
      else if displayValue <= 25.0 then Amber
      else Green
    else if displayValue >= 90.0 then Red
    else Amber
  }

  /** "used" mode never shows green. */
  lemma UsedNeverGreen(displayValue: real)
    ensures GetBarColor(displayValue, Used) != Green
  {
  }

  /** In "remaining" mode more left is never more alarming; in "used" mode more used is
      never less alarming. */
  lemma GetBarColorMonotone(v1: real, v2: real)
    requires v1 <= v2
    ensures Calm(GetBarColor(v1, Remaining)) <= Calm(GetBarColor(v2, Remaining))
    ensures Calm(GetBarColor(v1, Used)) >= Calm(GetBarColor(v2, Used))
  {
  }
}
