/** The display-only timer directive
    (src/app/shared/directives/timer/timer.directive.ts): it coerces its
    `appTimer` input to a number of seconds, shows the countdown of the
    `TimerService` as `m:ss`, and stops that service when destroyed. */
module DisplayTimer {
  import opened Wrappers
  import opened Strings
  import TimeFormat
  import TS = TimerService

  /** The values the `appTimer` input can be bound to. Numbers are
      integers here. */
  datatype DurationInput = Null | Undefined | Text(text: string) | Number(n: int)

  const DefaultDuration := 30

  /** The input transform: a missing or empty value is 30 seconds; a
      string is read by `parseInt(value, 10)`, with NaN read as 30; a
      number passes through unchanged. */
  function Duration(v: DurationInput): (r: int)
    ensures v.Null? || v.Undefined? || v == Text("") ==> r == DefaultDuration
    ensures v.Number? ==> r == v.n
    ensures v.Text? && ParseInt(v.text).None? ==> r == DefaultDuration
    ensures v.Text? && ParseInt(v.text).Some? ==> r == ParseInt(v.text).value
  {
    match v
    case Null => DefaultDuration
    case Undefined => DefaultDuration
    case Text(s) =>
      if s == "" then DefaultDuration
      else
        (match ParseInt(s)
         case None => DefaultDuration
         case Some(n) => n)
    case Number(n) => n
  }

  /** A string holding a decimal numeral is read as that number. */
  lemma DurationOfNumeral(n: nat)
    ensures Duration(Text(NatToString(n))) == n
  {
    ParseIntOfNumeral(n);
  }

  /** `'45'` reads as 45. */
  lemma DurationOfFortyFive()
    ensures Duration(Text("45")) == 45
  {
    assert "45" == NatToString(45) by {
      assert NatToString(4) == "4";
    }
    DurationOfNumeral(45);
  }

  /** `'abc'` is NaN, so it falls back to 30. */
  lemma DurationOfNonNumeric()
    ensures Duration(Text("abc")) == 30
  {
    assert !IsJsSpace('a') && !IsDigit('a');
    assert TrimStart("abc") == "abc";
    assert Unsigned("abc") == "abc";
  }

  /** `parseInt` skips leading white space and stops at the first
      non-digit: `' 12px'` reads as 12. */
  lemma DurationOfPaddedText()
    ensures Duration(Text(" 12px")) == 12
  {
    PaddedTextTrims();
    PaddedTextDigits();
    ParseIntUnsigned(" 12px");
  }

  lemma PaddedTextTrims()
    ensures TrimStart(" 12px") == "12px"
  {
    assert IsJsSpace(' ') && !IsJsSpace('1');
    assert " 12px"[1..] == "12px";
    assert TrimStart("12px") == "12px";
  }

  lemma PaddedTextDigits()
    ensures LeadingDigits("12px") == "12" && ParseDigits("12") == 12
  {
    assert "12px"[1..] == "2px";
    assert "2px"[1..] == "px";
    assert LeadingDigits("px") == "";
    assert "12"[..1] == "1";
    assert ParseDigits("1") == 1 by {
      assert "1"[..0] == "";
    }
  }

  /** A sign is read: `'-7'` is -7. */
  lemma DurationOfNegativeText()
    ensures Duration(Text("-7")) == -7
  {
    assert !IsJsSpace('-');
    assert TrimStart("-7") == "-7";
    assert Unsigned("-7") == "7";
    assert LeadingDigits("7") == "7" by {
      assert "7"[1..] == "";
    }
    assert ParseDigits("7") == 7 by {
      assert "7"[..0] == "";
    }
    ParseIntTrimmed("-7", "-7", "7");
  }

  /** The text the directive renders for the service's remaining time. */
  function Display(c: TS.Countdown): (text: string)
    requires c.remaining >= 0
    ensures TimeFormat.ParseClock(text) == Some(c.remaining)
  {
    TimeFormat.FormatTimeRoundTrip(c.remaining);
    TimeFormat.FormatTime(c.remaining)
  }

  /** `ngOnInit` leaves the service alone: the countdown is not started. */
  function OnInit(c: TS.Countdown): (r: TS.Countdown)
    ensures r.running == c.running && r.intervalActive == c.intervalActive && r.remaining == c.remaining
  {
    c
  }

  /** `ngOnDestroy` stops the service. */
  function OnDestroy(c: TS.Countdown): (r: TS.Countdown)
    ensures !r.running && !r.intervalActive && r.remaining == c.remaining
  {
    TS.Stop(c)
  }
}
