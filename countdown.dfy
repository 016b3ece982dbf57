/**
 * The reset countdown `formatTimeLeft` and the reset clock label `formatResetTime`
 * (claude-code-meter.jsx, lines 47-70).
 *
 * The clock read `new Date()` becomes the parameter `now`, and the reset timestamp is
 * taken already converted to milliseconds since the epoch; `None` stands for every
 * falsy `resetAt` (null, absent, empty). Both instants are integers, so `reset - now`
 * is a whole number of milliseconds, and for a positive difference `Math.floor` of the
 * quotient is Dafny's integer division.
 */
module Countdown {
  import opened Wrappers
  import opened Decimal

  const MS_PER_SECOND: nat := 1000
  const MS_PER_MINUTE: nat := 60000
  const MS_PER_HOUR: nat := 3600000

  /** Hours, minutes and seconds of a duration. */
  datatype Hms = Hms(h: nat, m: nat, s: nat)

  /** The milliseconds a decomposition stands for. */
  function Millis(t: Hms): nat {
    t.h * MS_PER_HOUR + t.m * MS_PER_MINUTE + t.s * MS_PER_SECOND
  }

  /** Whole seconds a decomposition stands for. */
  function Seconds(t: Hms): nat {
    t.h * 3600 + t.m * 60 + t.s
  }

  /** `h`, `m` and `s` as lines 53-55 compute them: whole hours, then the minutes and the
      seconds of what is left over. */
  function Decompose(diff: nat): (t: Hms)
    ensures t.m < 60 && t.s < 60
    ensures Millis(t) <= diff < Millis(t) + MS_PER_SECOND
  {
    var h := diff / MS_PER_HOUR;
    var rest := diff % MS_PER_HOUR;
    var m := rest / MS_PER_MINUTE;
    var s := (diff % MS_PER_MINUTE) / MS_PER_SECOND;
    assert diff == h * MS_PER_HOUR + rest;
    assert rest == m * MS_PER_MINUTE + rest % MS_PER_MINUTE;
    assert diff % MS_PER_MINUTE == rest % MS_PER_MINUTE by {
      assert diff == (h * 60 + m) * MS_PER_MINUTE + rest % MS_PER_MINUTE;
    }
    Hms(h, m, s)
  }

  /** The milliseconds of a decomposition are a whole number of seconds. */
  lemma MillisSeconds(t: Hms)
    ensures Millis(t) == Seconds(t) * MS_PER_SECOND
  {
  }

  /** The whole seconds shown are the whole seconds left. */
  lemma DecomposeSeconds(diff: nat)
    ensures Seconds(Decompose(diff)) == diff / MS_PER_SECOND
  {
    var t := Decompose(diff);
    MillisSeconds(t);
  }

  /** Mixed-radix digits are unique: hours, minutes below 60 and seconds below 60 that
      stand for the same number of seconds are the same. */
  lemma MixedRadixUnique(a: Hms, b: Hms)
    requires a.m < 60 && a.s < 60 && b.m < 60 && b.s < 60
    requires Seconds(a) == Seconds(b)
    ensures a == b
  {
    assert (a.h * 60 + a.m) * 60 + a.s == (b.h * 60 + b.m) * 60 + b.s;
    assert a.s == b.s && a.h * 60 + a.m == b.h * 60 + b.m;
  }

  /** The decomposition is the only one with minutes and seconds below 60 that brackets
      `diff` to the second, so lines 53-55 compute exactly the time left. */
  lemma DecomposeUnique(diff: nat, t: Hms)
    requires t.m < 60 && t.s < 60
    requires Millis(t) <= diff < Millis(t) + MS_PER_SECOND
    ensures t == Decompose(diff)
  {
    MillisSeconds(t);
    assert Seconds(t) == diff / MS_PER_SECOND;
    DecomposeSeconds(diff);
    MixedRadixUnique(t, Decompose(diff));
  }

  /** A later `now` never shows more time left: the countdown only goes down. */
  lemma DecomposeMonotone(d1: nat, d2: nat)
    requires d1 <= d2
    ensures Seconds(Decompose(d1)) <= Seconds(Decompose(d2))
  {
    DecomposeSeconds(d1);
    DecomposeSeconds(d2);
  }

  /** The two strings `formatTimeLeft` returns. */
  datatype TimeLeft = TimeLeft(timeStr: string, caption: string)

  const NO_DATA: TimeLeft := TimeLeft("--:--:--", "no data")
  const RESETTING: TimeLeft := TimeLeft("00:00:00", "resetting...")

  /** Characters a countdown text for a known reset instant is made of. */
  predicate CountdownChar(c: char) {
    IsDigit(c) || c == ':' || c == 'd' || c == ' '
  }

  predicate CountdownText(s: string) {
    forall i :: 0 <= i < |s| ==> CountdownChar(s[i])
  }

  lemma DigitsAreCountdownText(s: string)
    requires AllDigits(s)
    ensures CountdownText(s)
  {
  }

  lemma ConcatCountdownText(a: string, b: string)
    requires CountdownText(a) && CountdownText(b)
    ensures CountdownText(a + b)
  {
    forall i | 0 <= i < |a + b|
      ensures CountdownChar((a + b)[i])
    {
      if i < |a| {
        assert (a + b)[i] == a[i];
      } else {
        assert (a + b)[i] == b[i - |a|];
      }
    }
  }

  /** Characters of the `HH:MM:SS` form. */
  predicate ClockChars(s: string) {
    forall i :: 0 <= i < |s| ==> IsDigit(s[i]) || s[i] == ':'
  }

  lemma ConcatClockChars(a: string, b: string)
    requires ClockChars(a) && ClockChars(b)
    ensures ClockChars(a + b)
  {
    forall i | 0 <= i < |a + b|
      ensures IsDigit((a + b)[i]) || (a + b)[i] == ':'
    {
      if i < |a| {
        assert (a + b)[i] == a[i];
      } else {
        assert (a + b)[i] == b[i - |a|];
      }
    }
  }

  /** `${pad(h)}:${pad(m)}:${pad(s)}` (line 57). */
  function ClockText(h: nat, m: nat, s: nat): (r: string)
    ensures ClockChars(r)
    ensures CountdownText(r)
  {
    ConcatClockChars(Pad(h), ":");
    ConcatClockChars(Pad(h) + ":", Pad(m));
    ConcatClockChars(Pad(h) + ":" + Pad(m), ":");
    ConcatClockChars(Pad(h) + ":" + Pad(m) + ":", Pad(s));
    DigitsAreCountdownText(Pad(h));
    DigitsAreCountdownText(Pad(m));
    DigitsAreCountdownText(Pad(s));
    ConcatCountdownText(Pad(h), ":");
    ConcatCountdownText(Pad(h) + ":", Pad(m));
    ConcatCountdownText(Pad(h) + ":" + Pad(m), ":");
    ConcatCountdownText(Pad(h) + ":" + Pad(m) + ":", Pad(s));
    Pad(h) + ":" + Pad(m) + ":" + Pad(s)
  }

  /** `${days}d ${pad(remH)}:${pad(m)}` (line 61). */
  function DaysText(days: nat, remH: nat, m: nat): (r: string)
    ensures CountdownText(r)
  {
    DigitsAreCountdownText(NatToString(days));
    DigitsAreCountdownText(Pad(remH));
    DigitsAreCountdownText(Pad(m));
    ConcatCountdownText(NatToString(days), "d ");
    ConcatCountdownText(NatToString(days) + "d ", Pad(remH));
    ConcatCountdownText(NatToString(days) + "d " + Pad(remH), ":");
    ConcatCountdownText(NatToString(days) + "d " + Pad(remH) + ":", Pad(m));
    NatToString(days) + "d " + Pad(remH) + ":" + Pad(m)
  }

  /** `formatTimeLeft`: a placeholder without a reset instant, a zeroed sentinel once the
      instant has passed, `HH:MM:SS` below a day and `Nd HH:MM` from a day on. */
  function FormatTimeLeft(resetAt: Option<int>, now: int): (r: TimeLeft)
    ensures resetAt.None? ==> r == NO_DATA
    ensures resetAt.Some? && resetAt.value - now <= 0 ==> r == RESETTING
    ensures resetAt.Some? ==> CountdownText(r.timeStr)
  {
    match resetAt
    case None => NO_DATA
    case Some(reset) =>
      var diff := reset - now;
      if diff <= 0 then
        assert RESETTING.timeStr == "00:00:00";
        RESETTING
      else
        var t := Decompose(diff);
        var timeStr := ClockText(t.h, t.m, t.s);
        if t.h >= 24 then
          var days := t.h / 24;
          var remH := t.h % 24;
          TimeLeft(DaysText(days, remH, t.m),
                   "resets in " + NatToString(days) + "d " + NatToString(remH) + "h")
        else
          TimeLeft(timeStr, "resets in " + NatToString(t.h) + "h " + NatToString(t.m) + "m")
  }

  /** A countdown for a known reset instant never carries a minus sign. */
  lemma NeverNegative(reset: int, now: int)
    ensures '-' !in FormatTimeLeft(Some(reset), now).timeStr
  {
  }

  /** The hour count reaches 24 exactly when a full day or more is left. */
  lemma HoursBelowDay(diff: nat)
    ensures Decompose(diff).h < 24 <==> diff < 24 * MS_PER_HOUR
  {
    var h := diff / MS_PER_HOUR;
    assert diff == h * MS_PER_HOUR + diff % MS_PER_HOUR;
    if h >= 24 {
      assert h * MS_PER_HOUR >= 24 * MS_PER_HOUR;
    }
  }

  /** The fields of `ClockText` sit at fixed places when each is below 100. */
  lemma ClockTextFields(h: nat, m: nat, s: nat)
    requires h < 100 && m < 100 && s < 100
    ensures var r := ClockText(h, m, s);
      && |r| == 8 && r[2] == ':' && r[5] == ':'
      && r[0..2] == Pad(h) && r[3..5] == Pad(m) && r[6..8] == Pad(s)
  {
    var r := ClockText(h, m, s);
    assert r == Pad(h) + ":" + Pad(m) + ":" + Pad(s);
  }

  /** `d HH:MM`, the part of `DaysText` after the day count. */
  lemma DaysTail(remH: nat, m: nat)
    requires remH < 100 && m < 100
    ensures var tail := "d " + Pad(remH) + ":" + Pad(m);
      |tail| == 7 && tail[0..2] == "d " && tail[2..4] == Pad(remH) && tail[4] == ':' && tail[5..] == Pad(m)
  {
  }

  /** The pieces of a day count followed by a seven-character tail. */
  lemma PrefixAndTail(ds: string, tail: string)
    requires |tail| == 7
    ensures var r := ds + tail;
      var k := |ds|;
      && |r| - 7 == k && r[..k] == ds && r[k..k + 2] == tail[0..2]
      && r[k + 2..k + 4] == tail[2..4] && r[k + 4] == tail[4] && r[k + 5..] == tail[5..]
  {
  }

  /** The fields of `DaysText`, counted from its end. */
  lemma DaysTextFields(days: nat, remH: nat, m: nat)
    requires remH < 100 && m < 100
    ensures var r := DaysText(days, remH, m);
      var k := |r| - 7;
      && k == |NatToString(days)|
      && r[..k] == NatToString(days) && r[k..k + 2] == "d "
      && r[k + 2..k + 4] == Pad(remH) && r[k + 4] == ':' && r[k + 5..] == Pad(m)
  {
    var tail := "d " + Pad(remH) + ":" + Pad(m);
    DaysTail(remH, m);
    assert DaysText(days, remH, m) == NatToString(days) + tail;
    PrefixAndTail(NatToString(days), tail);
  }

  /** Below one day the countdown is the fixed-width `HH:MM:SS`; read back, its fields
      bracket the time left to the second, and the caption names hours and minutes. */
  lemma ClockForm(reset: int, now: int)
    requires 0 < reset - now < 24 * MS_PER_HOUR
    ensures var r := FormatTimeLeft(Some(reset), now);
      var t := Decompose(reset - now);
      && |r.timeStr| == 8 && r.timeStr[2] == ':' && r.timeStr[5] == ':'
      && AllDigits(r.timeStr[0..2]) && AllDigits(r.timeStr[3..5]) && AllDigits(r.timeStr[6..8])
      && (var shown := Hms(DecimalValue(r.timeStr[0..2]), DecimalValue(r.timeStr[3..5]),
                           DecimalValue(r.timeStr[6..8]));
          shown == t && Millis(shown) <= reset - now < Millis(shown) + MS_PER_SECOND)
      && r.caption == "resets in " + NatToString(t.h) + "h " + NatToString(t.m) + "m"
  {
    var t := Decompose(reset - now);
    HoursBelowDay(reset - now);
    var r := FormatTimeLeft(Some(reset), now);
    assert r.timeStr == ClockText(t.h, t.m, t.s);
    ClockTextFields(t.h, t.m, t.s);
    assert DecimalValue(r.timeStr[0..2]) == t.h;
    assert DecimalValue(r.timeStr[3..5]) == t.m;
    assert DecimalValue(r.timeStr[6..8]) == t.s;
  }

  /** Hours of at least one day split into whole days and hours of the day. */
  lemma DaySplit(h: nat)
    requires h >= 24
    ensures h / 24 >= 1 && h % 24 < 24 && (h / 24) * 24 + h % 24 == h
  {
  }

  lemma DaysResult(reset: int, now: int)
    requires reset - now >= 24 * MS_PER_HOUR
    ensures var t := Decompose(reset - now);
      FormatTimeLeft(Some(reset), now)
      == TimeLeft(DaysText(t.h / 24, t.h % 24, t.m),
                  "resets in " + NatToString(t.h / 24) + "d " + NatToString(t.h % 24) + "h")
  {
    var t := Decompose(reset - now);
    assert t.h >= 24 by {
      HoursBelowDay(reset - now);
    }
    var r := FormatTimeLeft(Some(reset), now);
    assert r.timeStr == DaysText(t.h / 24, t.h % 24, t.m);
  }

  /** From one day on the countdown is `Nd HH:MM`: the day count, two-digit hours of the
      day and two-digit minutes, which read back give the whole hours and minutes left;
      the seconds are dropped. */
  lemma DaysForm(reset: int, now: int)
    requires reset - now >= 24 * MS_PER_HOUR
    ensures var r := FormatTimeLeft(Some(reset), now);
      var t := Decompose(reset - now);
      var n := |r.timeStr|;
      && n >= 8
      && var k := n - 7;
         && AllDigits(r.timeStr[..k]) && r.timeStr[..k] == NatToString(t.h / 24)
         && r.timeStr[k..k + 2] == "d "
         && AllDigits(r.timeStr[k + 2..k + 4]) && r.timeStr[k + 4] == ':'
         && AllDigits(r.timeStr[k + 5..])
         && var days := DecimalValue(r.timeStr[..k]);
            var remH := DecimalValue(r.timeStr[k + 2..k + 4]);
            && days >= 1 && remH < 24 && days * 24 + remH == t.h
            && DecimalValue(r.timeStr[k + 5..]) == t.m
            && r.caption == "resets in " + NatToString(days) + "d " + NatToString(remH) + "h"
  {
    var t := Decompose(reset - now);
    var days, remH := t.h / 24, t.h % 24;
    DaySplit(t.h);
    var r := FormatTimeLeft(Some(reset), now);
    DaysResult(reset, now);
    DaysTextFields(days, remH, t.m);
    var k := |r.timeStr| - 7;
    assert DecimalValue(r.timeStr[..k]) == days;
    assert DecimalValue(r.timeStr[k + 2..k + 4]) == remH;
    assert DecimalValue(r.timeStr[k + 5..]) == t.m;
  }

  /** `formatResetTime`: `"--:--"` without a reset instant, otherwise the platform's
      local clock label for it, which this model takes as the parameter `clockLabel`. */
  function FormatResetTime(resetAt: Option<int>, clockLabel: int -> string): (r: string)
    ensures resetAt.None? ==> r == "--:--"
    ensures resetAt.Some? ==> r == clockLabel(resetAt.value)
  {
    match resetAt
    case None => "--:--"
    case Some(at) => clockLabel(at)
  }
}
