/** The characters of "[ 2018-04-07 17.50.41 ] 2019-01-01 00.00.00" that the proofs need. */
module TaggedNameSpelling {
  import opened Text

  /** The two dates, the brackets and the whitespace between them. */
  predicate TaggedChars(s: string) {
    TaggedFirst(s) && TaggedFirstClock(s) && TaggedSecond(s) && TaggedOpenTag(s) && TaggedSpaces(s)
  }

  predicate TaggedFirst(s: string) {
    && |s| == 43 && s[0] == '[' && s[1] == ' '
    && s[2] == '2' && s[3] == '0' && s[4] == '1' && s[5] == '8' && s[6] == '-'
    && s[7] == '0' && s[8] == '4' && s[9] == '-' && s[10] == '0' && s[11] == '7' && s[12] == ' '
  }

  predicate TaggedFirstClock(s: string) {
    && |s| == 43
    && s[13] == '1' && s[14] == '7' && s[15] == '.' && s[16] == '5' && s[17] == '0'
    && s[18] == '.' && s[19] == '4' && s[20] == '1' && s[21] == ' ' && s[22] == ']'
  }

  predicate TaggedSecond(s: string) {
    && |s| == 43 && s[23] == ' '
    && s[24] == '2' && s[25] == '0' && s[26] == '1' && s[27] == '9' && s[28] == '-'
    && s[29] == '0' && s[30] == '1' && s[31] == '-' && s[32] == '0' && s[33] == '1' && s[34] == ' '
    && s[35] == '0' && s[36] == '0' && s[37] == '.' && s[38] == '0' && s[39] == '0'
    && s[40] == '.' && s[41] == '0' && s[42] == '0'
  }

  /** Nothing between the `[` and the `]` closes the tag or ends the line. */
  predicate TaggedOpenTag(s: string) {
    forall k :: 1 <= k < 22 && k < |s| ==> s[k] != ']' && s[k] != '\n'
  }

  /** After the first clock, whitespace only separates the tag, the second date and its clock. */
  predicate TaggedSpaces(s: string) {
    forall k :: 21 <= k < |s| && IsSpace(s[k]) ==> k == 21 || k == 23 || k == 34
  }

  lemma TaggedSpelling(name: string)
    requires name == "[ " + "2018-04-07" + " " + "17.50.41" + " ] " + "2019-01-01" + " " + "00.00.00"
    ensures TaggedChars(name)
  {
    TaggedFirstChars(name);
    TaggedFirstClockChars(name);
    TaggedSecondChars(name);
    TaggedTagChars(name);
    TaggedSpaceChars(name);
  }

  lemma TaggedFirstChars(name: string)
    requires name == "[ " + "2018-04-07" + " " + "17.50.41" + " ] " + "2019-01-01" + " " + "00.00.00"
    ensures TaggedFirst(name)
  {
    assert |name| == 43;
    assert name[0] == '['; assert name[1] == ' ';
    assert name[2] == '2'; assert name[3] == '0'; assert name[4] == '1'; assert name[5] == '8';
    assert name[6] == '-'; assert name[7] == '0'; assert name[8] == '4'; assert name[9] == '-';
    assert name[10] == '0'; assert name[11] == '7'; assert name[12] == ' ';
  }

  lemma TaggedFirstClockChars(name: string)
    requires name == "[ " + "2018-04-07" + " " + "17.50.41" + " ] " + "2019-01-01" + " " + "00.00.00"
    ensures TaggedFirstClock(name)
  {
    assert |name| == 43;
    assert name[13] == '1'; assert name[14] == '7'; assert name[15] == '.'; assert name[16] == '5';
    assert name[17] == '0'; assert name[18] == '.'; assert name[19] == '4'; assert name[20] == '1';
    assert name[21] == ' '; assert name[22] == ']';
  }

  lemma TaggedSecondChars(name: string)
    requires name == "[ " + "2018-04-07" + " " + "17.50.41" + " ] " + "2019-01-01" + " " + "00.00.00"
    ensures TaggedSecond(name)
  {
    assert |name| == 43;
    assert name[23] == ' ';
    assert name[24] == '2'; assert name[25] == '0'; assert name[26] == '1'; assert name[27] == '9';
    assert name[28] == '-'; assert name[29] == '0'; assert name[30] == '1'; assert name[31] == '-';
    assert name[32] == '0'; assert name[33] == '1'; assert name[34] == ' ';
    assert name[35] == '0'; assert name[36] == '0'; assert name[37] == '.'; assert name[38] == '0';
    assert name[39] == '0'; assert name[40] == '.'; assert name[41] == '0'; assert name[42] == '0';
  }

  lemma TaggedTagChars(name: string)
    requires name == "[ " + "2018-04-07" + " " + "17.50.41" + " ] " + "2019-01-01" + " " + "00.00.00"
    ensures TaggedOpenTag(name)
  {
  }

  lemma TaggedSpaceChars(name: string)
    requires name == "[ " + "2018-04-07" + " " + "17.50.41" + " ] " + "2019-01-01" + " " + "00.00.00"
    ensures TaggedSpaces(name)
  {
  }
}

/**
 * A bracketed tag changes which date the video script reads: the tagged pattern is tried first
 * at every position, so at position 0 it skips the date inside the tag and reads the one after
 * it, while the photo-and-video script, whose pattern has no tag, reads the first date.
 */
module TaggedNameExamples {
  import opened Wrappers
  import opened Text
  import opened Scan
  import opened Calendar
  import opened DatePattern
  import VideoName
  import CreationName
  import opened TaggedNameSpelling

  /** The video script reads "[ 2018-04-07 17.50.41 ] 2019-01-01 00.00.00" as 2019-01-01 00:00:00. */
  lemma VideoReadsAfterTag(name: string)
    requires name == "[ " + "2018-04-07" + " " + "17.50.41" + " ] " + "2019-01-01" + " " + "00.00.00"
    ensures VideoName.Extract(name) == Found(DateTime(2019, 1, 1, 0, 0, 0, 0))
  {
    TaggedSpelling(name);
    TaggedMatch(name);
    LeftmostFirst(name, 0, VideoName.VideoAt, 0);
    ConstructFound(Fields(2019, 1, 1, 0, 0, 0), DateTime(2019, 1, 1, 0, 0, 0, 0));
  }

  /** At position 0 the lazy tag runs to the `]`, and the date after it is read. */
  lemma TaggedMatch(name: string)
    requires TaggedChars(name)
    ensures VideoName.VideoAt(name, 0) == Some((Fields(2019, 1, 1, 0, 0, 0), 43))
  {
    VideoName.TagSkips(name, 1, 22);
    OneSpace(name, 23);
    DateAtChars(name, 24);
    OneSpace(name, 34);
    ClockAtChars(name, 35);
  }

  /** The photo-and-video script reads the same name as 2018-04-07 17:50:41. */
  lemma CreationReadsInsideTag(name: string)
    requires name == "[ " + "2018-04-07" + " " + "17.50.41" + " ] " + "2019-01-01" + " " + "00.00.00"
    ensures CreationName.Extract(name) == Found(DateTime(2018, 4, 7, 17, 50, 41, 0))
  {
    TaggedSpelling(name);
    var f := Fields(2018, 4, 7, 17, 50, 41);
    FirstDateMatch(name);
    LeftmostFirst(name, 0, Core24At, 2);
    NoMeridiemAfterFirst(name);
    CreationName.TwentyFourHourReading(name, 2, f, 21);
    ConstructFound(f, DateTime(2018, 4, 7, 17, 50, 41, 0));
  }

  /** The first date matches the 24-hour pattern at position 2, and nothing earlier does. */
  lemma FirstDateMatch(name: string)
    requires TaggedChars(name)
    ensures Core24At(name, 2) == Some((Fields(2018, 4, 7, 17, 50, 41), 21))
    ensures forall i :: 0 <= i < 2 ==> Core24At(name, i).None?
  {
    Core24NeedsDigit(name, 0);
    Core24NeedsDigit(name, 1);
    DateAtChars(name, 2);
    OneSpace(name, 12);
    ClockAtChars(name, 13);
  }

  /** Neither whitespace run after the first clock is followed by AM or PM. */
  lemma NoMeridiemAfterFirst(name: string)
    requires TaggedChars(name)
    ensures forall k :: 21 <= k <= |name| ==> CreationName.MeridiemAt(name, k).None?
  {
    forall k | 21 <= k <= |name|
      ensures CreationName.MeridiemAt(name, k).None?
    {
      CreationName.MeridiemShape(name, k);
      if k == 21 {
        OneSpace(name, 21);
      } else if k == 23 {
        OneSpace(name, 23);
      } else if k == 34 {
        OneSpace(name, 34);
      }
    }
  }
}
