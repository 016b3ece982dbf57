/**
 * The segmented bar `UsageBar` (claude-code-meter.jsx, lines 82-102): the number of
 * lit cells `filled = Math.round(displayValue / 100 * segments)` and the lit test
 * `i < filled` for each of the `segments` cells built by `Array.from`.
 *
 * Percentages are real numbers; floating-point rounding of JavaScript numbers is not
 * modelled.
 */
module Bar {
  import opened DisplayState
  import opened Colors

  /** The `segments` default; no caller passes another value. */
  const SEGMENTS: nat := 20

  /** `Math.round`: the nearest integer, ties going toward positive infinity. */
  function Round(x: real): (r: int)
    ensures r as real - 0.5 <= x < r as real + 0.5
  {
    (x + 0.5).Floor
  }

  /** The integer nearest to `x`, ties up, is the only one within the half-open interval. */
  lemma RoundUnique(x: real, k: int)
    requires k as real - 0.5 <= x < k as real + 0.5
    ensures Round(x) == k
  {
  }

  lemma RoundMonotone(x: real, y: real)
    requires x <= y
    ensures Round(x) <= Round(y)
  {
  }

  /** `filled`: the number the lit test compares against. */
  function Filled(displayValue: real, segments: nat): (r: int)
    ensures r as real - 0.5 <= displayValue / 100.0 * segments as real < r as real + 0.5
  {
    Round(displayValue / 100.0 * segments as real)
  }

  /** The lit flag of each cell, indexed from the left. */
  function Cells(filled: int, segments: nat): (c: seq<bool>)
    ensures |c| == segments
  {
    seq(segments, i => i < filled)
  }

  /** The bar as drawn: the colour tier and which cells are lit. */
  datatype BarView = BarView(tier: Tier, lit: seq<bool>)

  function UsageBar(displayValue: real, mode: Mode, segments: nat): (b: BarView)
    ensures b.tier == GetBarColor(displayValue, mode)
    ensures |b.lit| == segments
    ensures forall i :: 0 <= i < segments ==> (b.lit[i] <==> i < Filled(displayValue, segments))
  {
    BarView(GetBarColor(displayValue, mode), Cells(Filled(displayValue, segments), segments))
  }

  /** Number of lit cells. */
  function CountLit(c: seq<bool>): nat
    decreases |c|
  {
    if c == [] then 0 else CountLit(c[..|c| - 1]) + (if c[|c| - 1] then 1 else 0)
  }

  function Clamp(x: int, lo: int, hi: int): int
    requires lo <= hi
  {
    if x < lo then lo else if x > hi then hi else x
  }

  /** The lit cells form a prefix of the bar, and there are `filled` of them once
      `filled` is cut into the range 0 to `segments`. */
  lemma {:induction false} CellsLitPrefix(filled: int, segments: nat)
    ensures var c := Cells(filled, segments);
      && (forall i, j :: 0 <= i <= j < segments && c[j] ==> c[i])
      && CountLit(c) == Clamp(filled, 0, segments)
    decreases segments
  {
    if segments > 0 {
      var c := Cells(filled, segments);
      assert c[..segments - 1] == Cells(filled, segments - 1);
      CellsLitPrefix(filled, segments - 1);
    }
  }

  /** For a percentage between 0 and 100 the count is between none and all cells. */
  lemma FilledBounds(displayValue: real, segments: nat)
    requires 0.0 <= displayValue <= 100.0
    ensures 0 <= Filled(displayValue, segments) <= segments
  {
    var x := displayValue / 100.0 * segments as real;
    assert 0.0 <= x <= segments as real by {
      ScaleBounds(displayValue / 100.0, segments as real);
    }
  }

  lemma ScaleBounds(f: real, n: real)
    requires 0.0 <= f <= 1.0 && 0.0 <= n
    ensures 0.0 <= f * n <= n
  {
    assert n - f * n == (1.0 - f) * n;
  }

  /** A larger percentage never lights fewer cells. */
  lemma FilledMonotone(v1: real, v2: real, segments: nat)
    requires v1 <= v2
    ensures Filled(v1, segments) <= Filled(v2, segments)
  {
    var n := segments as real;
    assert v2 / 100.0 * n - v1 / 100.0 * n == (v2 - v1) / 100.0 * n;
    assert (v2 - v1) / 100.0 * n >= 0.0;
    RoundMonotone(v1 / 100.0 * n, v2 / 100.0 * n);
  }

  /** The half-way case of 12.5 on a 20-cell bar rounds up to three cells, 97.5 already
      fills the bar, and the two ends are empty and full. */
  lemma FilledExamples()
    ensures Filled(12.5, SEGMENTS) == 3
    ensures Filled(97.5, SEGMENTS) == SEGMENTS
    ensures Filled(97.4, SEGMENTS) == SEGMENTS - 1
    ensures Filled(0.0, SEGMENTS) == 0 && Filled(100.0, SEGMENTS) == SEGMENTS
  {
    RoundUnique(2.5, 3);
    RoundUnique(19.5, 20);
    RoundUnique(19.48, 19);
    RoundUnique(0.0, 0);
    RoundUnique(20.0, 20);
  }

  /** For a percentage between 0 and 100 the bar lights exactly `filled` cells, all at
      its left end. */
  lemma UsageBarLitCount(displayValue: real, mode: Mode, segments: nat)
    ensures var b := UsageBar(displayValue, mode, segments);
      0.0 <= displayValue <= 100.0 ==>
      && CountLit(b.lit) == Filled(displayValue, segments)
      && (forall i, j :: 0 <= i <= j < segments && b.lit[j] ==> b.lit[i])
  {
    if 0.0 <= displayValue <= 100.0 {
      FilledBounds(displayValue, segments);
    }
    CellsLitPrefix(Filled(displayValue, segments), segments);
  }
}
