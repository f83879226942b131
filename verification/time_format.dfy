/** The `m:ss` countdown label shared by both timer directives and the
    shared timer's `formattedTime`. Only non-negative seconds are modelled. */
module TimeFormat {
  import opened Wrappers
  import opened Strings

  /** `${Math.floor(t / 60)}:${(t % 60).toString().padStart(2, '0')}`. */
  function FormatTime(t: nat): (r: string)
    ensures 4 <= |r| && r[|r| - 3] == ':'
  {
    Label(t / 60, t % 60)
  }

  /** The label for `minutes` and `seconds < 60`. */
  function Label(minutes: nat, seconds: nat): (r: string)
    requires seconds < 60
    ensures 4 <= |r| && r[|r| - 3] == ':'
  {
    SecondsWidth(seconds);
    Join(NatToString(minutes), PadStart(NatToString(seconds), 2, '0'))
  }

  /** Two fields joined by a colon, with the two-character field last. */
  function Join(minutes: string, seconds: string): (r: string)
    requires |minutes| >= 1 && |seconds| == 2
    ensures 4 <= |r| && r[|r| - 3] == ':'
    ensures r[..|r| - 3] == minutes && r[|r| - 2..] == seconds
  {
    var r := minutes + ":" + seconds;
    assert r[..|r| - 3] == minutes;
    assert r[|r| - 2..] == seconds;
    r
  }

  lemma SecondsWidth(s: nat)
    requires s < 60
    ensures |PadStart(NatToString(s), 2, '0')| == 2
  {
    if s >= 10 {
      assert NatToString(s) == NatToString(s / 10) + [DigitChar(s % 10)];
    }
  }

  /** The two-digit seconds field has value `s` for every `s < 60`. */
  lemma SecondsField(s: nat)
    requires s < 60
    ensures var f := PadStart(NatToString(s), 2, '0');
      |f| == 2 && AllDigits(f) && ParseDigits(f) == s && (s < 10 ==> f[0] == '0')
  {
    var f := PadStart(NatToString(s), 2, '0');
    ParseNatToString(s);
    if s < 10 {
      assert f == ['0', DigitChar(s)];
      assert f[..1] == ['0'];
    } else {
      assert f == NatToString(s);
    }
  }

  /** `r` reads as `minutes`, a colon and a two-digit seconds field worth
      `seconds`, zero-padded below ten. */
  predicate ShowsClock(r: string, minutes: nat, seconds: nat) {
    && 4 <= |r| && r[|r| - 3] == ':'
    && AllDigits(r[..|r| - 3]) && ParseDigits(r[..|r| - 3]) == minutes
    && AllDigits(r[|r| - 2..]) && ParseDigits(r[|r| - 2..]) == seconds
    && (seconds < 10 ==> r[|r| - 2] == '0')
  }

  /** Joining a minutes field and a seconds field shows their values. */
  lemma JoinShows(m: string, f: string, minutes: nat, seconds: nat)
    requires |m| >= 1 && AllDigits(m) && ParseDigits(m) == minutes
    requires |f| == 2 && AllDigits(f) && ParseDigits(f) == seconds
    requires seconds < 10 ==> f[0] == '0'
    ensures ShowsClock(Join(m, f), minutes, seconds)
  {
    var r := Join(m, f);
    assert r[|r| - 2] == f[0] by {
      assert r[|r| - 2..][0] == r[|r| - 2];
    }
  }

  lemma LabelFields(minutes: nat, seconds: nat)
    requires seconds < 60
    ensures ShowsClock(Label(minutes, seconds), minutes, seconds)
  {
    var m := NatToString(minutes);
    var f := PadStart(NatToString(seconds), 2, '0');
    SecondsField(seconds);
    ParseNatToString(minutes);
    assert Label(minutes, seconds) == Join(m, f);
    JoinShows(m, f, minutes, seconds);
  }

  /** The minutes field of a label is the decimal numeral of `minutes`,
      with no padding, and the seconds field is the numeral of `seconds`
      padded to two digits. */
  lemma LabelMinutesText(minutes: nat, seconds: nat)
    requires seconds < 60
    ensures Label(minutes, seconds)[..|Label(minutes, seconds)| - 3] == NatToString(minutes)
    ensures Label(minutes, seconds)[|Label(minutes, seconds)| - 2..] == PadStart(NatToString(seconds), 2, '0')
  {
    SecondsWidth(seconds);
  }

  /** The minutes field of `FormatTime(t)` is the unpadded numeral of
      `t div 60`. */
  lemma FormatTimeMinutesText(t: nat)
    ensures var r := FormatTime(t); r[..|r| - 3] == NatToString(t / 60)
  {
    assert FormatTime(t) == Label(t / 60, t % 60);
    LabelMinutesText(t / 60, t % 60);
  }

  /** The minutes field is `t div 60` and the seconds field is exactly two
      digits worth `t mod 60`, zero-padded below ten. */
  lemma FormatTimeFields(t: nat)
    ensures ShowsClock(FormatTime(t), t / 60, t % 60)
  {
    var minutes, seconds := t / 60, t % 60;
    assert FormatTime(t) == Label(minutes, seconds);
    LabelFields(minutes, seconds);
  }

  /** Reads an `m:ss` label back as a number of seconds. */
  function ParseClock(s: string): (r: Option<nat>)
    ensures r.Some? ==> 4 <= |s| && s[|s| - 3] == ':'
  {
    if 4 <= |s| && s[|s| - 3] == ':' && AllDigits(s[..|s| - 3]) && AllDigits(s[|s| - 2..])
    then Some(60 * ParseDigits(s[..|s| - 3]) + ParseDigits(s[|s| - 2..]))
    else None
  }

  /** A label showing `minutes` and `seconds` reads back as their total. */
  lemma ParseShownClock(r: string, minutes: nat, seconds: nat)
    requires ShowsClock(r, minutes, seconds)
    ensures ParseClock(r) == Some(60 * minutes + seconds)
  {
  }

  lemma LabelRoundTrip(minutes: nat, seconds: nat)
    requires seconds < 60
    ensures ParseClock(Label(minutes, seconds)) == Some(60 * minutes + seconds)
  {
    LabelFields(minutes, seconds);
    ParseShownClock(Label(minutes, seconds), minutes, seconds);
  }

  /** The label determines the time: reading it back gives `60*m + ss == t`. */
  lemma FormatTimeRoundTrip(t: nat)
    ensures ParseClock(FormatTime(t)) == Some(t)
  {
    var minutes, seconds := t / 60, t % 60;
    FormatTimeFields(t);
    ParseShownClock(FormatTime(t), minutes, seconds);
    assert 60 * minutes + seconds == t;
  }

  /** Distinct times never share a label. */
  lemma FormatTimeInjective(t: nat, u: nat)
    requires FormatTime(t) == FormatTime(u)
    ensures t == u
  {
    FormatTimeRoundTrip(t);
    FormatTimeRoundTrip(u);
  }
}
