/**
 * The helpers of the focus timer view (apps/web/src/components/FocusView.tsx):
 * the dial's minute options, the `MM:SS` countdown text and the remaining
 * time of a session as the client computes it from the server's record.
 * Client instants are integer milliseconds, as `Date.prototype.getTime`
 * gives them.
 */
module FocusView {
  import opened Wrappers
  import opened Numerals
  import Focus

  const MinMinutes: int := 0
  const MaxMinutes: int := 120
  const StepMinutes: int := 5

  /** `buildOptions()`: every dial position from 0 to 120 minutes in 5-minute steps. */
  method BuildOptions() returns (options: seq<int>)
    ensures |options| == (MaxMinutes - MinMinutes) / StepMinutes + 1
    ensures forall i :: 0 <= i < |options| ==> options[i] == MinMinutes + StepMinutes * i
    ensures forall i, j :: 0 <= i < j < |options| ==> options[i] < options[j]
    ensures forall m :: MinMinutes <= m <= MaxMinutes && m % StepMinutes == 0 <==> m in options
  {
    options := [];
    var value := MinMinutes;
    while value <= MaxMinutes
      invariant value == MinMinutes + StepMinutes * |options|
      invariant value <= MaxMinutes + StepMinutes
      invariant forall i :: 0 <= i < |options| ==> options[i] == MinMinutes + StepMinutes * i
      decreases MaxMinutes - value
    {
      options := options + [value];
      value := value + StepMinutes;
    }
    forall m | MinMinutes <= m <= MaxMinutes && m % StepMinutes == 0
      ensures m in options
    {
      assert options[m / StepMinutes] == m;
    }
  }

  /** Every character of `s` is a decimal digit. */
  predicate AllDecimal(s: string) {
    forall i :: 0 <= i < |s| ==> IsDigit(s[i], 10)
  }

  /** `n.toString().padStart(2, "0")`. */
  function TwoDigits(n: nat): string {
    PadStart(ToRadix(n, 10), 2, '0')
  }

  /**
   * `formatCountdown(totalSeconds)`: whole minutes, a colon and the seconds
   * within the minute, each at least two digits; a negative count shows
   * as zero.
   */
  function FormatCountdown(totalSeconds: int): (s: string)
    ensures |s| >= 5 && s[|s| - 3] == ':'
  {
    var safe := if totalSeconds < 0 then 0 else totalSeconds;
    var mm, ss := TwoDigits(safe / 60), TwoDigits(safe % 60);
    var s := mm + ":" + ss;
    assert |s| >= 5 && s[|s| - 3] == ':' by {
      TwoDigitsOfSmall(safe % 60);
      assert s[|mm|] == ':';
    }
    s
  }

  /** Reads an `MM:SS` text back: at least two minute digits, exactly two second digits below 60. */
  function ParseCountdown(s: string): Option<nat> {
    if |s| >= 5 && s[|s| - 3] == ':' && AllDecimal(s[..|s| - 3]) && AllDecimal(s[|s| - 2..])
       && ValueOf(s[|s| - 2..], 10) < 60
    then Some(ValueOf(s[..|s| - 3], 10) * 60 + ValueOf(s[|s| - 2..], 10))
    else None
  }

  /** Below 100 a number shows in exactly two digits. */
  lemma TwoDigitsOfSmall(n: nat)
    requires n < 100
    ensures |TwoDigits(n)| == 2
  {
    if n >= 10 {
      assert n / 10 < 10;
      assert |ToRadix(n / 10, 10)| == 1;
      assert ToRadix(n, 10) == ToRadix(n / 10, 10) + [Digit(n % 10)];
    }
  }

  /** Two-digit padding keeps the number's value in decimal digits. */
  lemma TwoDigitsValue(n: nat)
    ensures |TwoDigits(n)| >= 2 && AllDecimal(TwoDigits(n)) && ValueOf(TwoDigits(n), 10) == n
  {
    PaddedValue(n, 10, 2);
  }

  /** The minute and second fields of a countdown. */
  lemma CountdownFields(totalSeconds: int)
    ensures var s := FormatCountdown(totalSeconds);
            var safe := if totalSeconds < 0 then 0 else totalSeconds;
            && s[..|s| - 3] == TwoDigits(safe / 60) && s[|s| - 2..] == TwoDigits(safe % 60)
            && AllDecimal(s[..|s| - 3]) && AllDecimal(s[|s| - 2..])
            && ValueOf(s[..|s| - 3], 10) == safe / 60 && ValueOf(s[|s| - 2..], 10) == safe % 60
  {
    var safe := if totalSeconds < 0 then 0 else totalSeconds;
    var mm, ss := TwoDigits(safe / 60), TwoDigits(safe % 60);
    var s := FormatCountdown(totalSeconds);
    assert s == mm + ":" + ss;
    assert |ss| == 2 by {
      TwoDigitsOfSmall(safe % 60);
    }
    var front, back := s[..|s| - 3], s[|s| - 2..];
    assert front == mm && back == ss;
    assert AllDecimal(front) && ValueOf(front, 10) == safe / 60 by {
      TwoDigitsValue(safe / 60);
    }
    assert AllDecimal(back) && ValueOf(back, 10) == safe % 60 by {
      TwoDigitsValue(safe % 60);
    }
  }

  /** The countdown text reads back as the clamped number of seconds. */
  lemma CountdownRoundTrip(totalSeconds: int)
    ensures ParseCountdown(FormatCountdown(totalSeconds)) == Some(if totalSeconds < 0 then 0 else totalSeconds)
  {
    CountdownFields(totalSeconds);
  }

  /** Distinct non-negative counts show distinct texts. */
  lemma CountdownInjective(a: nat, b: nat)
    requires FormatCountdown(a) == FormatCountdown(b)
    ensures a == b
  {
    CountdownRoundTrip(a);
    CountdownRoundTrip(b);
  }

  /** Zero and anything below it show as "00:00". */
  lemma CountdownClampsAtZero(totalSeconds: int)
    requires totalSeconds <= 0
    ensures FormatCountdown(totalSeconds) == "00:00"
  {
    ZeroShowsTwoZeros();
    assert FormatCountdown(totalSeconds) == TwoDigits(0) + ":" + TwoDigits(0);
  }

  lemma ZeroShowsTwoZeros()
    ensures TwoDigits(0) == "00"
  {
    assert ToRadix(0, 10) == "0";
    assert Fill('0', 1) == "0";
  }

  /** `formatMinutesLabel(minutes)`: a whole number of minutes as a countdown. */
  function FormatMinutesLabel(minutes: int): string {
    FormatCountdown(minutes * 60)
  }

  /** A minute label always shows zero seconds, and reads back as the minutes, clamped at zero. */
  lemma MinutesLabelShowsWholeMinutes(minutes: int)
    ensures var s := FormatMinutesLabel(minutes);
            && s[|s| - 2..] == "00"
            && ValueOf(s[..|s| - 3], 10) == (if minutes < 0 then 0 else minutes)
  {
    var m: nat := if minutes < 0 then 0 else minutes;
    var t: nat := m * 60;
    assert FormatMinutesLabel(minutes) == FormatCountdown(t);
    assert t / 60 == m && t % 60 == 0 by {
      WholeMinutes(m);
    }
    var c := FormatCountdown(t);
    assert ValueOf(c[..|c| - 3], 10) == m && c[|c| - 2..] == TwoDigits(0) by {
      CountdownFields(t);
    }
    ZeroShowsTwoZeros();
  }

  /** The fields of a session the view reads, with instants in milliseconds. */
  datatype ClientSession = ClientSession(
    durationSeconds: int,
    startedMs: int,
    pausedSeconds: int,
    pausedAtMs: Option<int>,
    status: Focus.Status)

  /**
   * The instant the view measures to: the pause instant while paused (a
   * pause instant of 0 is falsy and ignored), otherwise now.
   */
  function EffectiveNow(s: ClientSession, nowMs: int): int {
    if s.pausedAtMs.Some? && s.pausedAtMs.value != 0 && s.status == Focus.Paused then s.pausedAtMs.value else nowMs
  }

  /**
   * `remainingSecondsFor(session, now)`: the duration less the whole seconds
   * elapsed, rounded down, net of the paused seconds and never below zero.
   */
  function RemainingSecondsFor(s: ClientSession, nowMs: int): (r: int)
    ensures r <= s.durationSeconds
    ensures r == s.durationSeconds ==> (EffectiveNow(s, nowMs) - s.startedMs) / 1000 <= s.pausedSeconds
  {
    var elapsed := (EffectiveNow(s, nowMs) - s.startedMs) / 1000 - s.pausedSeconds;
    s.durationSeconds - (if elapsed < 0 then 0 else elapsed)
  }

  /** While paused with a pause instant, the remaining time does not depend on the clock. */
  lemma RemainingFrozenWhilePaused(s: ClientSession, now1: int, now2: int)
    requires s.status == Focus.Paused && s.pausedAtMs.Some? && s.pausedAtMs.value != 0
    ensures RemainingSecondsFor(s, now1) == RemainingSecondsFor(s, now2)
  {
  }

  /** Otherwise the remaining time never goes up as the clock advances. */
  lemma RemainingCountsDown(s: ClientSession, now1: int, now2: int)
    requires now1 <= now2
    ensures RemainingSecondsFor(s, now2) <= RemainingSecondsFor(s, now1)
  {
    if EffectiveNow(s, now1) != EffectiveNow(s, now2) {
      FloorMonotonic(now1 - s.startedMs, now2 - s.startedMs);
    }
  }

  lemma FloorMonotonic(a: int, b: int)
    requires a <= b
    ensures a / 1000 <= b / 1000
  {
    assert a == 1000 * (a / 1000) + a % 1000;
    assert b == 1000 * (b / 1000) + b % 1000;
  }

  lemma WholeMinutes(m: nat)
    ensures (m * 60) / 60 == m && (m * 60) % 60 == 0
  {
    var q, r := (m * 60) / 60, (m * 60) % 60;
    assert m * 60 == 60 * q + r && 0 <= r < 60;
  }

  /**
   * The session as the view receives it: each instant parsed to whole
   * milliseconds (rounded down).
   */
  function ToClient(s: Focus.FocusSession): (c: ClientSession)
    ensures c.durationSeconds == s.durationSeconds && c.status == s.status && c.pausedSeconds == s.pausedSeconds
    ensures c.pausedAtMs.Some? <==> s.pausedAt.Some?
  {
    ClientSession(s.durationSeconds, s.startedAt / 1000, s.pausedSeconds,
                  if s.pausedAt.Some? then Some(s.pausedAt.value / 1000) else None, s.status)
  }

  /** On whole-millisecond spans, flooring to milliseconds then to seconds agrees with truncating to seconds. */
  lemma MillisThenSeconds(ms: int)
    ensures (ms * 1000) / 1000 == ms
    ensures ms / 1000 == Focus.Seconds(ms * 1000) || (ms < 0 && ms / 1000 < 0 && Focus.Seconds(ms * 1000) <= 0)
  {
    var q := ms / 1000;
    assert ms == q * 1000 + ms % 1000;
    if ms >= 0 {
      assert q * 1000000 <= ms * 1000 < (q + 1) * 1000000;
    }
  }

  /**
   * The view and the server agree on the time left: when the instants are
   * whole milliseconds, a pause instant is not the epoch and no negative
   * pause total was stored, the view's remaining seconds are the duration
   * less the server's elapsed seconds.
   */
  lemma ViewAgreesWithServer(s: Focus.FocusSession, nowMicros: int)
    requires s.startedAt % 1000 == 0 && nowMicros % 1000 == 0
    requires s.pausedAt.Some? ==> s.pausedAt.value % 1000 == 0 && s.pausedAt.value / 1000 != 0
    requires s.pausedSeconds >= 0
    ensures RemainingSecondsFor(ToClient(s), nowMicros / 1000) == s.durationSeconds - Focus.ElapsedSeconds(s, nowMicros)
  {
    var c := ToClient(s);
    var effMicros := if s.status == Focus.Paused && s.pausedAt.Some? then s.pausedAt.value else nowMicros;
    var span := EffectiveNow(c, nowMicros / 1000) - c.startedMs;
    assert span * 1000 == effMicros - s.startedAt;
    MillisThenSeconds(span);
  }
}
