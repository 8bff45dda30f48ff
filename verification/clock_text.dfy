/** The two time formats the bot reads from message text: `HH:MM` for
    "today"/"tomorrow at", and `YYYY-MM-DD HH:MM` for a full date and time, an
    ISO 8601 calendar date with a time of day (section 5.4 of ISO 8601). Only
    the shape is checked here; what instant a date names is up to the date
    library, which the model keeps abstract. */
module ClockText {
  import opened Options
  import opened Text

  datatype ClockTime = ClockTime(hour: nat, minute: nat)

  /** `/^(\d{1,2}):(\d{2})$/`: one or two digits, a colon, two digits. */
  predicate ClockShape(t: string) {
    exists k {:trigger t[..k]} :: 1 <= k <= 2 && |t| == k + 3
      && AllDigits(t[..k]) && t[k] == ':' && AllDigits(t[k + 1..])
  }

  /** The `HH:MM` parse of the message handler: the regex, then `parseInt` of
      both groups. Nothing bounds the hour by 23 or the minute by 59. */
  function ParseClock(t: string): (r: Option<ClockTime>)
    ensures r.Some? <==> ClockShape(t)
    ensures r.Some? ==> r.value.hour < 100 && r.value.minute < 100
  {
    if 4 <= |t| <= 5 && AllDigits(t[..|t| - 3]) && t[|t| - 3] == ':' && AllDigits(t[|t| - 2..]) then
      assert t[..|t| - 3] == t[..|t| - 3];
      Some(ClockTime(DigitsValue(t[..|t| - 3]), DigitsValue(t[|t| - 2..])))
    else
      assert !ClockShape(t) by {
        if k :| 1 <= k <= 2 && |t| == k + 3 && AllDigits(t[..k]) && t[k] == ':' && AllDigits(t[k + 1..]) {
          assert k == |t| - 3;
        }
      }
      None
  }

  /** How a time of day is written back: the hour without a leading zero, the
      minutes with two digits. */
  function FormatClock(c: ClockTime): string
    requires c.hour < 100 && c.minute < 100
  {
    NatToString(c.hour) + [':', DigitChar(c.minute / 10), DigitChar(c.minute % 10)]
  }

  lemma ShortNumeral(n: nat)
    requires n < 100
    ensures |NatToString(n)| == if n < 10 then 1 else 2
  {
  }

  /** Every time of day in range survives writing and reading back. */
  lemma ParseFormatClock(c: ClockTime)
    requires c.hour < 100 && c.minute < 100
    ensures ParseClock(FormatClock(c)) == Some(c)
  {
    var t := FormatClock(c);
    var h := NatToString(c.hour);
    ShortNumeral(c.hour);
    NatToStringValue(c.hour);
    assert t[..|t| - 3] == h;
    var m := t[|t| - 2..];
    assert m == [DigitChar(c.minute / 10), DigitChar(c.minute % 10)];
    assert m[..1] == [DigitChar(c.minute / 10)];
    assert DigitsValue(m) == DigitsValue(m[..1]) * 10 + c.minute % 10;
    assert DigitsValue(m[..1]) == DigitsValue([]) * 10 + c.minute / 10;
  }

  /** The handler takes "25:99" as hour 25, minute 99: the regex is the only check. */
  lemma NoRangeCheck()
    ensures ParseClock("25:99") == Some(ClockTime(25, 99))
  {
    var t := "25:99";
    assert t[..2] == "25" && t[3..] == "99";
    assert "25"[..1] == "2" && "99"[..1] == "9";
  }

  /** `/^(\d{4}-\d{2}-\d{2})[ T](\d{1,2}):(\d{2})$/`: four, two and two digits
      joined by dashes, a space or a `T`, then the `HH:MM` shape. */
  predicate DateTimeShape(t: string) {
    && |t| >= 11 && AllDigits(t[..4]) && t[4] == '-' && AllDigits(t[5..7]) && t[7] == '-'
    && AllDigits(t[8..10]) && (t[10] == ' ' || t[10] == 'T') && ClockShape(t[11..])
  }

  /** A one-digit hour padded with a zero names the same time of day. */
  lemma PadHour(hour: string, tail: string)
    requires ClockShape(hour + tail) && |tail| == 3
    ensures var padded := if |hour| == 1 then ['0'] + hour else hour;
            |padded| == 2 && ClockShape(padded + tail) && ParseClock(padded + tail) == ParseClock(hour + tail)
  {
    var t := hour + tail;
    assert t[..|t| - 3] == hour && t[|t| - 2..] == tail[1..];
    if |hour| == 1 {
      var p := ['0'] + hour;
      var u := p + tail;
      assert u[..|u| - 3] == p && u[|u| - 2..] == tail[1..] && u[|u| - 3] == t[|t| - 3];
      assert DigitsValue(p) == DigitsValue(p[..1]) * 10 + DigitValue(hour[0]);
      assert p[..1] == "0";
      assert DigitsValue(hour) == DigitsValue(hour[..0]) * 10 + DigitValue(hour[0]);
    }
  }

  /** The text `parseCustomDate` hands to the date library: the date, a `T`,
      the hour padded to two digits, a colon and the minutes. It keeps the
      date and the minutes, and names the same time of day. */
  function IsoText(t: string): (r: Option<string>)
    ensures r.Some? <==> DateTimeShape(t)
    ensures r.Some? ==> && |r.value| == 16 && DateTimeShape(r.value) && r.value[10] == 'T'
                        && r.value[..10] == t[..10] && r.value[13..] == t[|t| - 3..]
                        && ParseClock(r.value[11..]) == ParseClock(t[11..])
  {
    if DateTimeShape(t) then
      var hour, tail := t[11..|t| - 3], t[|t| - 3..];
      assert ParseClock(t[11..]).Some?;
      assert t[11..] == hour + tail;
      var padded := if |hour| == 1 then ['0'] + hour else hour;
      PadHour(hour, tail);
      var r := t[..10] + ['T'] + padded + tail;
      assert r[11..] == padded + tail;
      assert r[..4] == t[..4] && r[5..7] == t[5..7] && r[8..10] == t[8..10];
      Some(r)
    else None
  }

  /** `parseCustomDate`: trim, match the shape, and ask the date library
      (`fromIso`, which yields `None` for an invalid date) for the instant. */
  function ParseCustomDate(input: string, fromIso: string -> Option<int>): (r: Option<int>)
    ensures !DateTimeShape(Trim(input)) ==> r.None?
    ensures DateTimeShape(Trim(input)) ==> r == fromIso(IsoText(Trim(input)).value)
  {
    match IsoText(Trim(input))
    case None => None
    case Some(iso) => fromIso(iso)
  }

  /** A reply already in the library's own form reaches it unchanged. */
  lemma CanonicalReachesLibrary(iso: string, fromIso: string -> Option<int>)
    requires |iso| == 16 && DateTimeShape(iso) && iso[10] == 'T'
    ensures ParseCustomDate(iso, fromIso) == fromIso(iso)
  {
    assert !IsSpace(iso[0]) && !IsSpace(iso[15]);
    UnpaddedTrim(iso);
    CanonicalIsoText(iso);
  }

  /** The form users are told to type, `YYYY-MM-DD H:MM` with a space and a
      one-digit hour, reaches the library as `YYYY-MM-DDT0H:MM`. */
  lemma SpacedShortHourReachesLibrary(date: string, h: char, mm: string, fromIso: string -> Option<int>)
    requires |date| == 10 && AllDigits(date[..4]) && date[4] == '-' && AllDigits(date[5..7])
             && date[7] == '-' && AllDigits(date[8..])
    requires IsDigit(h) && |mm| == 2 && AllDigits(mm)
    ensures ParseCustomDate(date + " " + [h] + ":" + mm, fromIso) == fromIso(date + "T0" + [h] + ":" + mm)
  {
    var t := date + " " + [h] + ":" + mm;
    DigitNotSpace(t[0]);
    DigitNotSpace(t[|t| - 1]);
    UnpaddedTrim(t);
    assert t[11..][..1] == [h] && t[11..][2..] == mm;
    assert ClockShape(t[11..]);
    assert t[..4] == date[..4] && t[5..7] == date[5..7] && t[8..10] == date[8..];
    assert DateTimeShape(t);
    var hour, tail := t[11..|t| - 3], t[|t| - 3..];
    assert hour == [h] && tail == ":" + mm;
    assert IsoText(t).value == t[..10] + ['T'] + (['0'] + hour) + tail;
    assert t[..10] + ['T'] + (['0'] + hour) + tail == date + "T0" + [h] + ":" + mm;
    assert ParseCustomDate(t, fromIso) == fromIso(IsoText(t).value);
  }

  lemma CanonicalIsoText(iso: string)
    requires |iso| == 16 && DateTimeShape(iso) && iso[10] == 'T'
    ensures IsoText(iso) == Some(iso)
  {
    var hour := iso[11..|iso| - 3];
    assert |hour| == 2;
    assert iso[..10] + ['T'] + hour + iso[|iso| - 3..] == iso;
  }
}
