/**
 * The two timestamp formatters of the transcript view: `format_duration`
 * ("12m5s", used for segment timestamps) and `format_duration_full`
 * ("1h02m05s" / "2m05s", used for the recording length).
 *
 * Seconds are whole non-negative numbers: for a non-negative float `x`, both
 * `int(x // 60)` and `int(x % 60)` depend only on the integer part of `x`, so
 * the model takes that integer part as its input.
 *
 * Each formatter is paired with a reader that recovers the number of seconds,
 * and the round-trip lemmas show that no information is lost.
 */
module Durations {
  import opened Text

  /** The "<minutes>m<seconds>s" layout shared by both formatters. */
  function MinSecText(minutes: string, secs: string): string
  {
    minutes + "m" + secs + "s"
  }

  /** `format_duration`: whole minutes, "m", the remaining seconds, "s". */
  function FormatDuration(seconds: nat): string
  {
    MinSecText(NatToString(seconds / 60), NatToString(seconds % 60))
  }

  /** `format_duration_full`: hours only when there is at least one, and the
      fields after the leading one padded to two digits. */
  function FormatDurationFull(seconds: nat): string
  {
    ClockText(seconds / 3600, (seconds % 3600) / 60, seconds % 60)
  }

  /** The text `format_duration_full` shows for its three fields. */
  function ClockText(hours: nat, minutes: nat, secs: nat): string
  {
    if hours > 0 then NatToString(hours) + "h" + MinSecText(Pad2(minutes), Pad2(secs))
    else MinSecText(NatToString(minutes), Pad2(secs))
  }

  // ---------------------------------------------------------------------------
  // Readers
  // ---------------------------------------------------------------------------

  /** Reads "<minutes>m<seconds>s" (seconds below 60) back into seconds. */
  function ParseMinSec(s: string): Option<nat>
  {
    if s == [] || s[|s| - 1] != 's' then None
    else
      var body := s[..|s| - 1];
      match IndexOf(body, 'm')
      case None => None
      case Some(k) =>
        var m, sec := ParseNat(body[..k]), ParseNat(body[k + 1..]);
        if m.Some? && sec.Some? && sec.value < 60 then Some(m.value * 60 + sec.value) else None
  }

  /** Reads what `FormatDurationFull` writes back into seconds. */
  function ParseDurationFull(s: string): Option<nat>
  {
    match IndexOf(s, 'h')
    case None => ParseMinSec(s)
    case Some(k) =>
      var h, rest := ParseNat(s[..k]), ParseMinSec(s[k + 1..]);
      if h.Some? && rest.Some? && rest.value < 3600 then Some(h.value * 3600 + rest.value) else None
  }

  // ---------------------------------------------------------------------------
  // Round trips
  // ---------------------------------------------------------------------------

  /** Reading "<m>m<s>s" recovers m * 60 + s for any digit fields. */
  lemma {:induction false} ParseMinSecFields(m: nat, sec: nat, ms: string, ss: string)
    requires ParseNat(ms) == Some(m) && ParseNat(ss) == Some(sec) && sec < 60
    ensures ParseMinSec(MinSecText(ms, ss)) == Some(m * 60 + sec)
  {
    var s := MinSecText(ms, ss);
    var body := s[..|s| - 1];
    assert body == ms + "m" + ss;
    IndexOfFirst(ms, 'm', ss);
    assert body[..|ms|] == ms;
    assert body[|ms| + 1..] == ss;
  }

  /** A "<minutes>m<seconds>s" text holds no 'h'. */
  lemma MinSecTextHasNoHours(ms: string, ss: string)
    requires AllDigits(ms) && AllDigits(ss)
    ensures IndexOf(MinSecText(ms, ss), 'h') == None
  {
    var s := MinSecText(ms, ss);
    assert forall j :: 0 <= j < |s| ==> s[j] != 'h';
  }

  /** Reading "<h>h" followed by a minutes-and-seconds text under an hour. */
  lemma {:induction false} ParseHoursField(h: nat, rest: nat, hs: string, tail: string)
    requires ParseNat(hs) == Some(h) && ParseMinSec(tail) == Some(rest) && rest < 3600
    ensures ParseDurationFull(hs + "h" + tail) == Some(h * 3600 + rest)
  {
    var s := hs + "h" + tail;
    IndexOfFirst(hs, 'h', tail);
    assert s[..|hs|] == hs;
    assert s[|hs| + 1..] == tail;
  }

  /** `format_duration` loses nothing: its text determines the seconds. */
  lemma FormatDurationRoundTrip(seconds: nat)
    ensures ParseMinSec(FormatDuration(seconds)) == Some(seconds)
  {
    NatToStringRoundTrip(seconds / 60);
    NatToStringRoundTrip(seconds % 60);
    ParseMinSecFields(seconds / 60, seconds % 60, NatToString(seconds / 60), NatToString(seconds % 60));
  }

  lemma SecondsWithinHour(seconds: nat)
    ensures (seconds % 3600) / 60 < 60
    ensures (seconds / 3600) * 3600 + ((seconds % 3600) / 60) * 60 + seconds % 60 == seconds
  {
    var q, r := seconds / 3600, seconds % 3600;
    assert seconds == (q * 60) * 60 + r;
    assert (r / 60) * 60 + r % 60 == r;
    assert seconds == (q * 60 + r / 60) * 60 + r % 60;
  }

  /** Reading back the three fields of `format_duration_full`. */
  lemma ClockTextRoundTrip(hours: nat, minutes: nat, secs: nat)
    requires minutes < 60 && secs < 60
    ensures ParseDurationFull(ClockText(hours, minutes, secs)) == Some(hours * 3600 + minutes * 60 + secs)
  {
    if hours > 0 {
      ClockTextWithHours(hours, minutes, secs);
    } else {
      ClockTextWithoutHours(minutes, secs);
    }
  }

  lemma ClockTextWithHours(hours: nat, minutes: nat, secs: nat)
    requires minutes < 60 && secs < 60
    ensures ParseDurationFull(NatToString(hours) + "h" + MinSecText(Pad2(minutes), Pad2(secs)))
      == Some(hours * 3600 + minutes * 60 + secs)
  {
    NatToStringRoundTrip(hours);
    Pad2RoundTrip(minutes);
    Pad2RoundTrip(secs);
    HoursLayoutFields(hours, minutes, secs, NatToString(hours), Pad2(minutes), Pad2(secs));
  }

  /** Reading "<h>h<m>m<s>s" for any digit fields. */
  lemma HoursLayoutFields(hours: nat, minutes: nat, secs: nat, hs: string, ms: string, ss: string)
    requires ParseNat(hs) == Some(hours) && ParseNat(ms) == Some(minutes) && ParseNat(ss) == Some(secs)
    requires minutes < 60 && secs < 60
    ensures ParseDurationFull(hs + "h" + MinSecText(ms, ss)) == Some(hours * 3600 + minutes * 60 + secs)
  {
    ParseMinSecFields(minutes, secs, ms, ss);
    ParseHoursField(hours, minutes * 60 + secs, hs, MinSecText(ms, ss));
  }

  lemma ClockTextWithoutHours(minutes: nat, secs: nat)
    requires minutes < 60 && secs < 60
    ensures ParseDurationFull(MinSecText(NatToString(minutes), Pad2(secs))) == Some(minutes * 60 + secs)
  {
    var ms, ss := NatToString(minutes), Pad2(secs);
    assert ParseMinSec(MinSecText(ms, ss)) == Some(minutes * 60 + secs) by {
      NatToStringRoundTrip(minutes);
      Pad2RoundTrip(secs);
      ParseMinSecFields(minutes, secs, ms, ss);
    }
    assert IndexOf(MinSecText(ms, ss), 'h') == None by {
      MinSecTextHasNoHours(ms, ss);
    }
  }

  /** `format_duration_full` loses nothing either, in both of its layouts. */
  lemma FormatDurationFullRoundTrip(seconds: nat)
    ensures ParseDurationFull(FormatDurationFull(seconds)) == Some(seconds)
  {
    var h, m, sec := seconds / 3600, (seconds % 3600) / 60, seconds % 60;
    assert m < 60 && h * 3600 + m * 60 + sec == seconds by {
      SecondsWithinHour(seconds);
    }
    assert ParseDurationFull(ClockText(h, m, sec)) == Some(h * 3600 + m * 60 + sec) by {
      ClockTextRoundTrip(h, m, sec);
    }
  }

  /** Hence two different durations are never displayed alike. */
  lemma FormatDurationInjective(a: nat, b: nat)
    requires a != b
    ensures FormatDuration(a) != FormatDuration(b)
    ensures FormatDurationFull(a) != FormatDurationFull(b)
  {
    FormatDurationRoundTrip(a);
    FormatDurationRoundTrip(b);
    FormatDurationFullRoundTrip(a);
    FormatDurationFullRoundTrip(b);
  }
}
