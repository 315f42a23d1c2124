/**
 * The time-zone step of both filename scripts: a naive local reading is tagged with the
 * configured zone and converted to UTC, and the zone's offset is shown as a "UTC-03:00" label.
 * The zone's rules are not modelled; the offset the zone gives for a reading is a parameter.
 */
module Zone {
  import opened Wrappers
  import opened Text
  import opened Calendar

  /** A UTC offset in seconds, east positive; Python requires it strictly within one day. */
  type Offset = o: int | -86400 < o < 86400

  /**
   * `local.replace(tzinfo=zone).astimezone(UTC)` when the zone's offset at `local` is
   * `offset`: the UTC reading is the local one minus the offset. Leaving the year range
   * raises `OverflowError`, here `None`.
   */
  function ToUtc(local: DateTime, offset: Offset): (r: Option<DateTime>)
    requires Valid(local)
    ensures r.Some? <==> 0 <= Timestamp(local) - offset < MaxOrdinal * 86400
    ensures r.Some? ==>
      && Valid(r.value)
      && Timestamp(r.value) + offset == Timestamp(local)
      && r.value.micro == local.micro
  {
    AddSeconds(local, -offset)
  }

  /** The wall-clock reading at `utc` in a zone whose offset there is `offset`. */
  function FromUtc(utc: DateTime, offset: Offset): (r: Option<DateTime>)
    requires Valid(utc)
    ensures r.Some? <==> 0 <= Timestamp(utc) + offset < MaxOrdinal * 86400
    ensures r.Some? ==> Valid(r.value) && Timestamp(r.value) == Timestamp(utc) + offset
    ensures r.Some? ==> r.value.micro == utc.micro
  {
    AddSeconds(utc, offset)
  }

  /** Converting to UTC and back with the same offset gives the local reading back. */
  lemma UtcRoundTrip(local: DateTime, offset: Offset, utc: DateTime)
    requires Valid(local) && ToUtc(local, offset) == Some(utc)
    ensures FromUtc(utc, offset) == Some(local)
  {
    assert Valid(utc) && Timestamp(utc) + offset == Timestamp(local) && utc.micro == local.micro;
    AddSecondsExact(utc, offset, local);
  }

  /** Reading UTC in the zone and converting back gives the UTC reading back. */
  lemma LocalRoundTrip(utc: DateTime, offset: Offset, local: DateTime)
    requires Valid(utc) && FromUtc(utc, offset) == Some(local)
    ensures ToUtc(local, offset) == Some(utc)
  {
    var ahead: int := offset;
    assert AddSeconds(utc, ahead) == Some(local);
    AddSecondsInverse(utc, ahead, local);
  }

  /** The size of an offset, whichever side of UTC it is on. */
  function Magnitude(offset: Offset): (a: nat)
    ensures a < 86400 && (if offset < 0 then a == -offset else a == offset)
  {
    if offset < 0 then -offset else offset
  }

  /**
   * The `%H%M` and optional `%S` digits of an offset's size: two digits each, the seconds
   * only when there are any, reading back as the size.
   */
  function ClockDigits(a: nat): (f: (string, string, string))
    requires a < 86400
    ensures |f.0| == 2 && |f.1| == 2 && |f.2| == (if a % 60 == 0 then 0 else 2)
    ensures AllDigits(f.0) && AllDigits(f.1) && AllDigits(f.2)
    ensures Value(f.0) * 3600 + Value(f.1) * 60 + (if |f.2| == 2 then Value(f.2) else 0) == a
  {
    SplitSecondsOfDay(a);
    (Pad(a / 3600, 2), Pad(a % 3600 / 60, 2), if a % 60 != 0 then Pad(a % 60, 2) else "")
  }

  /** The digits of a size given by its hours, minutes and seconds. */
  lemma ClockDigitsOf(a: nat, h: nat, m: nat, sec: nat)
    requires h < 24 && m < 60 && sec < 60 && a == h * 3600 + m * 60 + sec
    ensures ClockDigits(a) == (Pad(h, 2), Pad(m, 2), if sec != 0 then Pad(sec, 2) else "")
  {
    DivUnique(a, 3600, h, m * 60 + sec);
    DivUnique(a % 3600, 60, m, sec);
    DivUnique(a, 60, h * 60 + m, sec);
  }

  /**
   * `strftime('%z')`: sign, hours and minutes, and the seconds only when there are any
   * (the zone's local mean time before 1914 has them).
   */
  function FormatOffset(offset: Offset): string {
    var f := ClockDigits(Magnitude(offset));
    [if offset < 0 then '-' else '+'] + f.0 + f.1 + f.2
  }

  /** `f"UTC{offset[:3]}:{offset[3:]}"` of a `%z` text, with Python's clamped slices. */
  function Label(z: string): string {
    var k := if |z| < 3 then |z| else 3;
    "UTC" + z[..k] + ":" + z[k..]
  }

  function OffsetLabel(offset: Offset): string {
    Label(FormatOffset(offset))
  }

  /** The label splits the `%z` text after the sign and the hours. */
  lemma LabelLayout(sign: char, hh: string, mm: string, ss: string)
    requires |hh| == 2 && |mm| == 2
    ensures Label([sign] + hh + mm + ss) == "UTC" + [sign] + hh + ":" + mm + ss
  {
    var z := [sign] + hh + mm + ss;
    assert z[..3] == [sign] + hh;
    assert z[3..] == mm + ss;
  }

  /** The parts of the label: sign, then hours, minutes and (when non-zero) seconds. */
  lemma OffsetParts(offset: Offset) returns (sign: char, hh: string, mm: string, ss: string)
    ensures OffsetLabel(offset) == "UTC" + [sign] + hh + ":" + mm + ss
    ensures sign == (if offset < 0 then '-' else '+')
    ensures (hh, mm, ss) == ClockDigits(Magnitude(offset))
  {
    var f := ClockDigits(Magnitude(offset));
    sign, hh, mm, ss := if offset < 0 then '-' else '+', f.0, f.1, f.2;
    LabelLayout(sign, hh, mm, ss);
  }

  /** Where the parts sit in the label. */
  lemma LabelShape(sign: char, hh: string, mm: string, ss: string)
    requires |hh| == 2 && |mm| == 2 && (|ss| == 0 || |ss| == 2)
    ensures var shown := "UTC" + [sign] + hh + ":" + mm + ss;
      && |shown| == 9 + |ss| && shown[..3] == "UTC" && shown[3] == sign && shown[6] == ':'
      && shown[4..6] == hh && shown[7..9] == mm && shown[7..] == mm + ss
      && (|ss| == 2 ==> shown[9..11] == ss)
  {
    var shown := "UTC" + [sign] + hh + ":" + mm + ss;
    assert shown[4..6] == hh;
    assert shown[7..9] == mm;
    assert shown[7..] == mm + ss;
    if |ss| == 2 {
      assert shown[9..11] == ss;
    }
  }

  /**
   * The label reads back as the offset: "UTC", the sign, two digits of hours, ":", two digits
   * of minutes, and two more digits of seconds exactly when the offset has seconds.
   */
  lemma OffsetLabelReadsBack(offset: Offset)
    ensures var shown := OffsetLabel(offset);
      && |shown| == (if Magnitude(offset) % 60 == 0 then 9 else 11)
      && shown[..3] == "UTC"
      && shown[3] == (if offset < 0 then '-' else '+')
      && shown[6] == ':'
      && AllDigits(shown[4..6]) && AllDigits(shown[7..])
      && var seconds := if |shown| == 11 then Value(shown[9..11]) else 0;
         Value(shown[4..6]) * 3600 + Value(shown[7..9]) * 60 + seconds == Magnitude(offset)
  {
    var sign, hh, mm, ss := OffsetParts(offset);
    LabelShape(sign, hh, mm, ss);
    assert AllDigits(mm + ss);
  }

  /** Standard Brasilia time, three hours behind UTC, is labelled "UTC-03:00". */
  lemma BrasiliaLabel(offset: Offset)
    requires offset == -10800
    ensures OffsetLabel(offset) == "UTC" + "-" + "03" + ":" + "00"
  {
    HoursOnly(Magnitude(offset));
    LabelWithoutSeconds(offset, "03", "00");
  }

  /** An offset of whole minutes shows only the sign, the hours and the minutes. */
  lemma LabelWithoutSeconds(offset: Offset, hh: string, mm: string)
    requires ClockDigits(Magnitude(offset)) == (hh, mm, "")
    ensures OffsetLabel(offset) == "UTC" + [if offset < 0 then '-' else '+'] + hh + ":" + mm
  {
    var sign, h, m, ss := OffsetParts(offset);
    assert "UTC" + [sign] + h + ":" + m + ss == "UTC" + [sign] + h + ":" + m;
  }

  /** The zone's local mean time, -3:06:28, keeps its seconds after the minutes. */
  lemma LocalMeanTimeLabel(offset: Offset)
    requires offset == -11188
    ensures OffsetLabel(offset) == "UTC" + "-" + "03" + ":" + "06" + "28"
  {
    var sign, hh, mm, ss := OffsetParts(offset);
    assert sign == '-' && hh == "03" && mm == "06" && ss == "28" by {
      MeanTimeDigits(Magnitude(offset));
    }
  }

  lemma HoursOnly(a: nat)
    requires a == 10800
    ensures ClockDigits(a) == ("03", "00", "")
  {
    ClockDigitsOf(a, 3, 0, 0);
    PadTwo(3);
    PadTwo(0);
  }

  lemma MeanTimeDigits(a: nat)
    requires a == 11188
    ensures ClockDigits(a) == ("03", "06", "28")
  {
    ClockDigitsOf(a, 3, 6, 28);
    PadTwo(3);
    PadTwo(6);
    PadTwo(28);
  }
}
