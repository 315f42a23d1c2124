/** The characters of the example file names, each group read off its literal on its own. */
module CreationNameSpelling {
  import opened Text

  /** The characters of the WhatsApp name that the proof needs. */
  predicate WhatsAppChars(s: string) {
    WhatsAppDigitsFree(s) && WhatsAppDashes(s) && WhatsAppDate(s) && WhatsAppClock(s)
  }

  predicate WhatsAppDigitsFree(s: string) {
    |s| == 44 && forall k :: 0 <= k < 15 ==> !IsDigit(s[k])
  }

  predicate WhatsAppDashes(s: string) {
    forall k :: 0 <= k < |s| && s[k] == '-' ==> k == 19 || k == 22
  }

  predicate WhatsAppDate(s: string) {
    && |s| == 44
    && s[15] == '2' && s[16] == '0' && s[17] == '2' && s[18] == '5' && s[19] == '-'
    && s[20] == '1' && s[21] == '2' && s[22] == '-' && s[23] == '3' && s[24] == '1'
    && s[25] == ' ' && s[26] == 'a' && s[27] == 't' && s[28] == ' '
  }

  predicate WhatsAppClock(s: string) {
    && |s| == 44
    && s[29] == '1' && s[30] == '1' && s[31] == '.' && s[32] == '0' && s[33] == '8'
    && s[34] == '.' && s[35] == '3' && s[36] == '5' && s[37] == ' ' && s[38] == 'P' && s[39] == 'M'
  }

  /** The four groups of characters, each read off the literal on its own. */
  lemma WhatsAppSpelling(name: string)
    requires name == "WhatsApp Video " + "2025-12-31" + " at " + "11.08.35" + " PM.mp4"
    ensures WhatsAppChars(name)
  {
    WhatsAppPrefix(name);
    WhatsAppDashPositions(name);
    WhatsAppDateChars(name);
    WhatsAppClockChars(name);
  }

  lemma WhatsAppPrefix(name: string)
    requires name == "WhatsApp Video " + "2025-12-31" + " at " + "11.08.35" + " PM.mp4"
    ensures WhatsAppDigitsFree(name)
  {
  }

  lemma WhatsAppDashPositions(name: string)
    requires name == "WhatsApp Video " + "2025-12-31" + " at " + "11.08.35" + " PM.mp4"
    ensures WhatsAppDashes(name)
  {
  }

  lemma WhatsAppDateChars(name: string)
    requires name == "WhatsApp Video " + "2025-12-31" + " at " + "11.08.35" + " PM.mp4"
    ensures WhatsAppDate(name)
  {
    assert |name| == 44;
    assert name[15] == '2';
    assert name[16] == '0';
    assert name[17] == '2';
    assert name[18] == '5';
    assert name[19] == '-';
    assert name[20] == '1';
    assert name[21] == '2';
    assert name[22] == '-';
    assert name[23] == '3';
    assert name[24] == '1';
    assert name[25] == ' ';
    assert name[26] == 'a';
    assert name[27] == 't';
    assert name[28] == ' ';
  }

  lemma WhatsAppClockChars(name: string)
    requires name == "WhatsApp Video " + "2025-12-31" + " at " + "11.08.35" + " PM.mp4"
    ensures WhatsAppClock(name)
  {
    assert |name| == 44;
    assert name[29] == '1';
    assert name[30] == '1';
    assert name[31] == '.';
    assert name[32] == '0';
    assert name[33] == '8';
    assert name[34] == '.';
    assert name[35] == '3';
    assert name[36] == '5';
    assert name[37] == ' ';
    assert name[38] == 'P';
    assert name[39] == 'M';
  }

  predicate NoAtChars(s: string) {
    NoAtDashes(s) && NoAtDate(s) && NoAtClock(s)
  }

  predicate NoAtDashes(s: string) {
    forall k :: 0 <= k < |s| && s[k] == '-' ==> k == 4 || k == 7
  }

  predicate NoAtDate(s: string) {
    && |s| == 26
    && s[0] == '2' && s[1] == '0' && s[2] == '2' && s[3] == '5' && s[4] == '-'
    && s[5] == '1' && s[6] == '2' && s[7] == '-' && s[8] == '3' && s[9] == '1' && s[10] == ' '
  }

  predicate NoAtClock(s: string) {
    && |s| == 26
    && s[11] == '1' && s[12] == '1' && s[13] == '.' && s[14] == '0' && s[15] == '8'
    && s[16] == '.' && s[17] == '3' && s[18] == '5' && s[19] == ' ' && s[20] == 'P' && s[21] == 'M'
    && s[22] == '.'
  }

  lemma NoAtSpelling(name: string)
    requires name == "2025-12-31" + " " + "11.08.35" + " PM.mp4"
    ensures NoAtChars(name)
  {
    NoAtDashPositions(name);
    NoAtDateChars(name);
    NoAtClockChars(name);
  }

  lemma NoAtDashPositions(name: string)
    requires name == "2025-12-31" + " " + "11.08.35" + " PM.mp4"
    ensures NoAtDashes(name)
  {
  }

  lemma NoAtDateChars(name: string)
    requires name == "2025-12-31" + " " + "11.08.35" + " PM.mp4"
    ensures NoAtDate(name)
  {
    assert |name| == 26;
    assert name[0] == '2';
    assert name[1] == '0';
    assert name[2] == '2';
    assert name[3] == '5';
    assert name[4] == '-';
    assert name[5] == '1';
    assert name[6] == '2';
    assert name[7] == '-';
    assert name[8] == '3';
    assert name[9] == '1';
    assert name[10] == ' ';
  }

  lemma NoAtClockChars(name: string)
    requires name == "2025-12-31" + " " + "11.08.35" + " PM.mp4"
    ensures NoAtClock(name)
  {
    assert |name| == 26;
    assert name[11] == '1';
    assert name[12] == '1';
    assert name[13] == '.';
    assert name[14] == '0';
    assert name[15] == '8';
    assert name[16] == '.';
    assert name[17] == '3';
    assert name[18] == '5';
    assert name[19] == ' ';
    assert name[20] == 'P';
    assert name[21] == 'M';
    assert name[22] == '.';
  }

  /** "2025-12-31 AT 9.08.35 pm.jpg": upper-case "AT", a one-digit hour, lower-case "pm". */
  predicate ShortHourChars(s: string) {
    ShortHourDashes(s) && ShortHourDate(s) && ShortHourClock(s)
  }

  predicate ShortHourDashes(s: string) {
    forall k :: 0 <= k < |s| && s[k] == '-' ==> k == 4 || k == 7
  }

  predicate ShortHourDate(s: string) {
    && |s| == 28
    && s[0] == '2' && s[1] == '0' && s[2] == '2' && s[3] == '5' && s[4] == '-'
    && s[5] == '1' && s[6] == '2' && s[7] == '-' && s[8] == '3' && s[9] == '1'
    && s[10] == ' ' && s[11] == 'A' && s[12] == 'T' && s[13] == ' '
  }

  predicate ShortHourClock(s: string) {
    && |s| == 28
    && s[14] == '9' && s[15] == '.' && s[16] == '0' && s[17] == '8' && s[18] == '.'
    && s[19] == '3' && s[20] == '5' && s[21] == ' ' && s[22] == 'p' && s[23] == 'm'
  }

  lemma ShortHourSpelling(name: string)
    requires name == "2025-12-31" + " AT " + "9.08.35" + " pm.jpg"
    ensures ShortHourChars(name)
  {
    ShortHourDashPositions(name);
    ShortHourDateChars(name);
    ShortHourClockChars(name);
  }

  lemma ShortHourDashPositions(name: string)
    requires name == "2025-12-31" + " AT " + "9.08.35" + " pm.jpg"
    ensures ShortHourDashes(name)
  {
  }

  lemma ShortHourDateChars(name: string)
    requires name == "2025-12-31" + " AT " + "9.08.35" + " pm.jpg"
    ensures ShortHourDate(name)
  {
    assert |name| == 28;
    assert name[0] == '2';
    assert name[1] == '0';
    assert name[2] == '2';
    assert name[3] == '5';
    assert name[4] == '-';
    assert name[5] == '1';
    assert name[6] == '2';
    assert name[7] == '-';
    assert name[8] == '3';
    assert name[9] == '1';
    assert name[10] == ' ';
    assert name[11] == 'A';
    assert name[12] == 'T';
    assert name[13] == ' ';
  }

  lemma ShortHourClockChars(name: string)
    requires name == "2025-12-31" + " AT " + "9.08.35" + " pm.jpg"
    ensures ShortHourClock(name)
  {
    assert |name| == 28;
    assert name[14] == '9';
    assert name[15] == '.';
    assert name[16] == '0';
    assert name[17] == '8';
    assert name[18] == '.';
    assert name[19] == '3';
    assert name[20] == '5';
    assert name[21] == ' ';
    assert name[22] == 'p';
    assert name[23] == 'm';
  }
}

/**
 * File names the photo-and-video script is documented to read, and one it cannot. Each
 * example first spells out the characters its proof looks at, then reasons from those alone.
 */
module CreationNameExamples {
  import opened Wrappers
  import opened Text
  import opened Scan
  import opened Calendar
  import opened DatePattern
  import opened CreationName
  import opened CreationNameSpelling
  import VideoName

  /** "WhatsApp Video 2025-12-31 at 11.08.35 PM.mp4" is read as 2025-12-31 23:08:35. */
  lemma WhatsAppVideo(name: string)
    requires name == "WhatsApp Video " + "2025-12-31" + " at " + "11.08.35" + " PM.mp4"
    ensures Extract(name) == Found(DateTime(2025, 12, 31, 23, 8, 35, 0))
  {
    WhatsAppSpelling(name);
    WhatsAppNot24(name);
    WhatsAppTwelveHour(name);
    WhatsAppNothingEarlier(name);
    LeftmostFirst(name, 0, TwelveHourAt, 15);
    ConstructFound(Fields(2025, 12, 31, 23, 8, 35), DateTime(2025, 12, 31, 23, 8, 35, 0));
  }

  /** The only date in the name is followed by " at", so the 24-hour pattern is nowhere. */
  lemma WhatsAppNot24(name: string)
    requires WhatsAppChars(name)
    ensures forall i :: 0 <= i <= |name| ==> Core24At(name, i).None?
  {
    forall i | 0 <= i <= |name|
      ensures Core24At(name, i).None?
    {
      Core24Shape(name, i);
      if i == 15 {
        OneSpace(name, 25);
      }
    }
  }

  /** The 12-hour pattern first matches where the date starts. */
  lemma WhatsAppTwelveHour(name: string)
    requires WhatsAppChars(name)
    ensures TwelveHourAt(name, 15) == Some((Fields(2025, 12, 31, 11, 8, 35), PM))
  {
    DateAtChars(name, 15);
    OneSpace(name, 25);
    OneSpace(name, 28);
    TwoDigits(name, 29);
    TwoDigits(name, 32);
    TwoDigits(name, 35);
    OneSpace(name, 37);
  }

  /** No digit comes before the date, so nothing earlier starts the 12-hour pattern. */
  lemma WhatsAppNothingEarlier(name: string)
    requires WhatsAppChars(name)
    ensures forall i :: 0 <= i < 15 ==> TwelveHourAt(name, i).None?
  {
    forall i | 0 <= i < 15
      ensures TwelveHourAt(name, i).None?
    {
      TwelveHourShape(name, i);
    }
  }

  /**
   * "2025-12-31 11.08.35 PM.mp4" gives no date: the 24-hour reading is dropped because PM
   * follows it, and the 12-hour pattern needs "at".
   */
  lemma MeridiemWithoutAt(name: string)
    requires name == "2025-12-31" + " " + "11.08.35" + " PM.mp4"
    ensures Extract(name) == NoDate
  {
    NoAtSpelling(name);
    NoAtReadings(name);
    LeftmostFirst(name, 0, Core24At, 0);
    LeftmostFirst(name, 19, MeridiemAt, 19);
    NoAtNotTwelveHour(name);
  }

  /** The 24-hour pattern matches at the start and " PM" follows it. */
  lemma NoAtReadings(name: string)
    requires NoAtChars(name)
    ensures Core24At(name, 0) == Some((Fields(2025, 12, 31, 11, 8, 35), 19))
    ensures MeridiemAt(name, 19) == Some(PM)
  {
    DateAtChars(name, 0);
    OneSpace(name, 10);
    ClockAtChars(name, 11);
    OneSpace(name, 19);
  }

  lemma NoAtNotTwelveHour(name: string)
    requires NoAtChars(name)
    ensures forall i :: 0 <= i <= |name| ==> TwelveHourAt(name, i).None?
  {
    forall i | 0 <= i <= |name|
      ensures TwelveHourAt(name, i).None?
    {
      TwelveHourShape(name, i);
      if i == 0 {
        OneSpace(name, 10);
      }
    }
  }

  /**
   * The video script reads "2025-12-31 11.08.35 PM.mp4" as 11:08:35: it has no AM/PM rule,
   * so the same name the photo-and-video script skips gives the morning time.
   */
  lemma VideoIgnoresMeridiem(name: string)
    requires name == "2025-12-31" + " " + "11.08.35" + " PM.mp4"
    ensures VideoName.Extract(name) == Found(DateTime(2025, 12, 31, 11, 8, 35, 0))
  {
    NoAtSpelling(name);
    NoAtReadings(name);
    VideoName.UntaggedAt(name, 0);
    VideoName.VideoReading(name, 0, Fields(2025, 12, 31, 11, 8, 35), 19);
    ConstructFound(Fields(2025, 12, 31, 11, 8, 35), DateTime(2025, 12, 31, 11, 8, 35, 0));
  }

  /**
   * "2025-12-31 AT 9.08.35 pm.jpg" is read as 21:08:35: "AT" and "pm" match in any case, and
   * the hour may be a single digit.
   */
  lemma ShortHourAnyCase(name: string)
    requires name == "2025-12-31" + " AT " + "9.08.35" + " pm.jpg"
    ensures Extract(name) == Found(DateTime(2025, 12, 31, 21, 8, 35, 0))
  {
    ShortHourSpelling(name);
    ShortHourNot24(name);
    ShortHourMatch(name);
    TwelveHourReading(name, 0, Fields(2025, 12, 31, 9, 8, 35), PM);
    ConstructFound(Fields(2025, 12, 31, 21, 8, 35), DateTime(2025, 12, 31, 21, 8, 35, 0));
  }

  /** The date is followed by " AT", so the 24-hour pattern is nowhere. */
  lemma ShortHourNot24(name: string)
    requires ShortHourChars(name)
    ensures forall i :: 0 <= i <= |name| ==> Core24At(name, i).None?
  {
    forall i | 0 <= i <= |name|
      ensures Core24At(name, i).None?
    {
      Core24Shape(name, i);
      if i == 0 {
        OneSpace(name, 10);
        assert !IsDigit(name[11..13][0]);
      }
    }
  }

  /** The 12-hour pattern matches at the start, with a one-digit hour. */
  lemma ShortHourMatch(name: string)
    requires ShortHourChars(name)
    ensures TwelveHourAt(name, 0) == Some((Fields(2025, 12, 31, 9, 8, 35), PM))
  {
    ShortHourLayout(name);
    TwelveHourExactly(name, 0, 11, 14, 1);
  }

  lemma ShortHourLayout(name: string)
    requires ShortHourChars(name)
    ensures TwelveHourLayout(name, 0, 11, 14, 1)
    ensures DateAt(name, 0) == Some((2025, 12, 31)) && MeridiemAt(name, 21) == Some(PM)
    ensures FieldValue(name, 14, 1) == 9 && FieldValue(name, 16, 2) == 8 && FieldValue(name, 19, 2) == 35
  {
    DateAtChars(name, 0);
    assert AllSpace(name[10..11]) && AllSpace(name[13..14]);
    assert DigitsAt(name, 14, 0) && FieldValue(name, 14, 0) == 0;
    DigitsAtStep(name, 14, 0);
    TwoDigits(name, 16);
    TwoDigits(name, 19);
    OneSpace(name, 21);
  }
}
