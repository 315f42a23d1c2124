/**
 * The per-file work of the shot-date script: read the recorded time with a probing tool,
 * move it 728 days and 23 hours forward, and write it back. The probing tool's output and
 * whether the writing tool succeeded are parameters: `None` for a probe that could not be run.
 */
module ShotDate {
  import opened Wrappers
  import opened Text
  import opened Scan
  import opened Calendar
  import opened TimeFormat

  const ShiftDays := 728
  const ShiftHours := 23
  /** `timedelta(days=728, hours=23)` in seconds. */
  const ShiftSeconds := ShiftDays * 86400 + ShiftHours * 3600

  /**
   * `t + timedelta(days=728, hours=23)`: the day stepped forward 728 times through the
   * calendar, then 23 hours added with the carry past midnight; `None` past 9999-12-31.
   */
  function Shifted(t: DateTime): (r: Option<DateTime>)
    requires Valid(t)
    ensures r == AddByCarries(t, ShiftDays, ShiftHours)
    ensures r.Some? ==> Valid(r.value) && Timestamp(r.value) == Timestamp(t) + ShiftSeconds && r.value.micro == t.micro
  {
    AddSecondsAgreesWithCarries(t, ShiftDays, ShiftHours);
    AddSeconds(t, ShiftSeconds)
  }

  /** Why a file was counted as an error. */
  datatype Failure =
    | ProbeFailed            // the probing tool could not be started
    | NoCreationTime         // no `creation_time` line in ffmpeg's report
    | EmptyDateTimeOriginal  // exiftool printed nothing but whitespace
    | Unparsable(text: string) // `strptime` rejected the value read
    | OutOfRange             // the shifted time is past 9999-12-31
    | WriteFailed            // copying or the writing tool failed

  /** What processing one file comes to: the value read and the value written, or why not. */
  datatype Outcome = Done(original: string, written: string) | Failed(why: Failure)

  const Key := "creation_time"

  /** `creation_time` spelled out at `i`, case and all. */
  predicate KeyAt(s: string, i: nat) {
    i + |Key| <= |s| && s[i..i + |Key|] == Key
  }

  /** Where the line holding position `e` ends: the next newline, or the end of the text. */
  function LineEnd(s: string, e: nat): (r: nat)
    requires e <= |s|
    ensures e <= r <= |s| && (r == |s| || s[r] == '\n')
    ensures forall k :: e <= k < r ==> s[k] != '\n'
    decreases |s| - e
  {
    if e == |s| || s[e] == '\n' then e else LineEnd(s, e + 1)
  }

  /** `e` can start `(.+)`: there is a character there and it is not a newline. */
  predicate CanStartGroup(s: string, e: nat) {
    e < |s| && s[e] != '\n'
  }

  /**
   * Where `(.+)` starts after `:\s*` when the greedy `\s*` can run from `lo` to `e`: the
   * regular expression gives whitespace back, one character at a time, until `.+` can start.
   */
  function GroupStart(s: string, lo: nat, e: nat): (r: Option<nat>)
    requires lo <= e
    ensures r.None? <==> forall k :: lo <= k <= e ==> !CanStartGroup(s, k)
    ensures r.Some? ==>
      && lo <= r.value <= e && CanStartGroup(s, r.value)
      && forall k :: r.value < k <= e ==> !CanStartGroup(s, k)
    decreases e - lo
  {
    if CanStartGroup(s, e) then Some(e)
    else if e == lo then None
    else GroupStart(s, lo, e - 1)
  }

  /** `\s*(.+)` after the colon at `a`: the group, up to the end of its line. */
  function ValueAfterColon(s: string, a: nat): (r: Option<string>)
    requires a < |s|
    ensures r.Some? ==> |r.value| > 0 && forall k :: 0 <= k < |r.value| ==> r.value[k] != '\n'
  {
    match GroupStart(s, a + 1, SpaceRunEnd(s, a + 1))
    case None => None
    case Some(e) => Some(s[e..LineEnd(s, e)])
  }

  /** `creation_time\s*:\s*(.+)` anchored at `i`: the group, before `.strip()`. */
  function CreationTimeAt(s: string, i: nat): (r: Option<string>)
    ensures r.Some? ==> KeyAt(s, i)
  {
    if !KeyAt(s, i) then None
    else
      var a := SpaceRunEnd(s, i + |Key|);
      if a < |s| && s[a] == ':' then ValueAfterColon(s, a) else None
  }

  /** `re.search(...)` on ffmpeg's report, then `.group(1).strip()`. */
  function CreationTime(report: string): (r: Option<string>)
    ensures r.None? <==> forall i :: 0 <= i <= |report| ==> CreationTimeAt(report, i).None?
  {
    match Leftmost(report, 0, CreationTimeAt)
    case None => None
    case Some((_, group)) => Some(Strip(group))
  }

  /**
   * A `creation_time` line read the usual way: the key, whitespace, a colon, whitespace, and
   * a value on the same line. The group is the value up to the end of its line.
   */
  lemma CreationTimeAtReads(s: string, i: nat, a: nat, w: nat)
    requires KeyAt(s, i) && i + |Key| <= a < w < |s|
    requires AllSpace(s[i + |Key|..a]) && s[a] == ':'
    requires AllSpace(s[a + 1..w]) && !IsSpace(s[w])
    ensures CreationTimeAt(s, i) == Some(s[w..LineEnd(s, w)])
  {
    AfterColon(s, i, a);
    ValueOnLine(s, a, w);
  }

  /** A value on the colon's own line is taken from its first character to the end of the line. */
  lemma ValueOnLine(s: string, a: nat, w: nat)
    requires a < w < |s| && AllSpace(s[a + 1..w]) && !IsSpace(s[w])
    ensures ValueAfterColon(s, a) == Some(s[w..LineEnd(s, w)])
  {
    SpaceRunUnique(s, a + 1, w);
  }

  /**
   * A colon followed only by whitespace to the end of the report: `\s*` gives back the last
   * whitespace character, which `(.+)` then takes, so the value is blank rather than missing.
   */
  lemma BlankValue(s: string, a: nat)
    requires a < |s| - 1 && AllSpace(s[a + 1..]) && s[|s| - 1] != '\n'
    ensures ValueAfterColon(s, a) == Some(s[|s| - 1..]) && IsSpace(s[|s| - 1])
  {
    var last := |s| - 1;
    SpaceRunUnique(s, a + 1, |s|);
    assert GroupStart(s, a + 1, |s|) == Some(last) by {
      assert !CanStartGroup(s, |s|) && CanStartGroup(s, last);
    }
    assert LineEnd(s, last) == |s|;
    assert s[last..LineEnd(s, last)] == s[last..];
    assert s[a + 1..][last - (a + 1)] == s[last];
  }

  /** Past the key, whitespace and the colon at `a`, the group is what follows the colon. */
  lemma AfterColon(s: string, i: nat, a: nat)
    requires KeyAt(s, i) && i + |Key| <= a < |s|
    requires AllSpace(s[i + |Key|..a]) && s[a] == ':'
    ensures CreationTimeAt(s, i) == ValueAfterColon(s, a)
  {
    SpaceRunUnique(s, i + |Key|, a);
  }

  /** The first `creation_time` line read the usual way gives its value, stripped. */
  lemma CreationTimeFirst(s: string, i: nat, a: nat, w: nat)
    requires KeyAt(s, i) && i + |Key| <= a < w < |s|
    requires AllSpace(s[i + |Key|..a]) && s[a] == ':'
    requires AllSpace(s[a + 1..w]) && !IsSpace(s[w])
    requires forall k :: 0 <= k < i ==> CreationTimeAt(s, k).None?
    ensures CreationTime(s) == Some(Strip(s[w..LineEnd(s, w)]))
  {
    CreationTimeAtReads(s, i, a, w);
    LeftmostFirst(s, 0, CreationTimeAt, i);
  }

  /** The first `creation_time` line with nothing but whitespace after its colon gives an empty value. */
  lemma CreationTimeBlankFirst(s: string, i: nat, a: nat)
    requires KeyAt(s, i) && i + |Key| <= a < |s| - 1
    requires AllSpace(s[i + |Key|..a]) && s[a] == ':'
    requires AllSpace(s[a + 1..]) && s[|s| - 1] != '\n'
    requires forall k :: 0 <= k < i ==> CreationTimeAt(s, k).None?
    ensures CreationTime(s) == Some("")
  {
    AfterColon(s, i, a);
    BlankValue(s, a);
    LeftmostFirst(s, 0, CreationTimeAt, i);
    var blank := s[|s| - 1..];
    assert AllSpace(blank);
    StripBlank(blank);
  }

  /** The photo branch: `exiftool -DateTimeOriginal -s3`, shifted and written back. */
  function ShiftPhoto(probe: Option<string>, written: bool): (r: Outcome)
    ensures r.Done? ==> probe.Some? && r.original == Strip(probe.value) && |r.original| > 0
  {
    match probe
    case None => Failed(ProbeFailed)
    case Some(output) =>
      var text := Strip(output);
      if |text| == 0 then Failed(EmptyDateTimeOriginal)
      else
        match Parse(ExifFormat, text)
        case None => Failed(Unparsable(text))
        case Some(t) =>
          match Shifted(t)
          case None => Failed(OutOfRange)
          case Some(u) => if written then Done(text, Render(ExifFormat, u)) else Failed(WriteFailed)
  }

  /** The video branch: ffmpeg's report searched, shifted, and written in UTC without the fraction. */
  function ShiftVideo(probe: Option<string>, written: bool): (r: Outcome)
    ensures r.Done? ==> probe.Some? && CreationTime(probe.value) == Some(r.original)
  {
    match probe
    case None => Failed(ProbeFailed)
    case Some(report) =>
      match CreationTime(report)
      case None => Failed(NoCreationTime)
      case Some(text) =>
        match Parse(FfmpegFormat, text)
        case None => Failed(Unparsable(text))
        case Some(t) =>
          match Shifted(t)
          case None => Failed(OutOfRange)
          case Some(u) => if written then Done(text, Render(UtcFormat, u)) else Failed(WriteFailed)
  }
}

module ShotDateProofs {
  import opened Wrappers
  import opened Text
  import opened Scan
  import opened Calendar
  import opened TimeFormat
  import opened TimeFormatProofs
  import opened ShotDate

  /**
   * A photo is shifted exactly when exiftool ran, printed a non-blank value, the value is a
   * "%Y:%m:%d %H:%M:%S" time, the shift stays within year 9999 and the write succeeds.
   */
  lemma PhotoSucceeds(probe: Option<string>, written: bool)
    ensures ShiftPhoto(probe, written).Done? <==>
      && probe.Some? && !AllSpace(probe.value)
      && Parse(ExifFormat, Strip(probe.value)).Some?
      && Shifted(Parse(ExifFormat, Strip(probe.value)).value).Some?
      && written
  {
    if probe.Some? {
      StripBlank(probe.value);
    }
  }

  /** The value written reads back, in the same format, as the value read plus 728 days 23 hours. */
  lemma PhotoReadsBackShifted(probe: Option<string>, written: bool)
    requires ShiftPhoto(probe, written).Done?
    ensures var r := ShiftPhoto(probe, written);
      && Parse(ExifFormat, r.original).Some? && Parse(ExifFormat, r.written).Some?
      && var (t, u) := (Parse(ExifFormat, r.original).value, Parse(ExifFormat, r.written).value);
         Timestamp(u) == Timestamp(t) + ShiftSeconds && u.micro == 0
  {
    var t := Parse(ExifFormat, Strip(probe.value)).value;
    ExifRoundTrip(t);
    ExifRoundTrip(Shifted(t).value);
  }

  /** Blank exiftool output, and only blank output, is the empty-`DateTimeOriginal` error. */
  lemma PhotoBlank(output: string, written: bool)
    ensures ShiftPhoto(Some(output), written) == Failed(EmptyDateTimeOriginal) <==> AllSpace(output)
  {
    StripBlank(output);
  }

  /**
   * A video is shifted exactly when ffmpeg ran, its report has a `creation_time` line whose
   * value is a "%Y-%m-%dT%H:%M:%S.%fZ" time, the shift stays within year 9999 and the write
   * succeeds.
   */
  lemma VideoSucceeds(probe: Option<string>, written: bool)
    ensures ShiftVideo(probe, written).Done? <==>
      && probe.Some? && CreationTime(probe.value).Some?
      && Parse(FfmpegFormat, CreationTime(probe.value).value).Some?
      && Shifted(Parse(FfmpegFormat, CreationTime(probe.value).value).value).Some?
      && written
  {
  }

  /**
   * The value written for a video is the shifted time in "%Y-%m-%dT%H:%M:%SZ": it reads back
   * in that format as the shifted time with the microseconds dropped, and it is not itself in
   * the format the script reads, for it has no fraction.
   */
  lemma VideoDropsFraction(probe: Option<string>, written: bool)
    requires ShiftVideo(probe, written).Done?
    ensures var r := ShiftVideo(probe, written);
      && Parse(FfmpegFormat, r.original).Some?
      && var t := Parse(FfmpegFormat, r.original).value;
         && Shifted(t).Some?
         && Parse(UtcFormat, r.written) == Some(Shifted(t).value.(micro := 0))
         && Parse(FfmpegFormat, r.written).None?
  {
    var t := Parse(FfmpegFormat, CreationTime(probe.value).value).value;
    UtcRoundTrip(Shifted(t).value);
    UtcRejectedAsFfmpeg(Shifted(t).value);
  }

  /** A `creation_time` value without the fraction, as the script itself writes them, is an error. */
  lemma VideoRejectsWholeSeconds(report: string, t: DateTime, written: bool)
    requires Valid(t) && CreationTime(report) == Some(Render(UtcFormat, t))
    ensures ShiftVideo(Some(report), written) == Failed(Unparsable(Render(UtcFormat, t)))
  {
    UtcRejectedAsFfmpeg(t);
  }

  /** A match of a format that ends in a literal ends on a character that literal accepts. */
  lemma {:induction false} MatchEndsWithLit(ds: seq<Directive>, c: char, s: string, i: nat, acc: DateTime)
    requires i <= |s| && |ds| > 0 && ds[|ds| - 1] == Lit(c)
    requires Match(ds, s, i, acc).Some?
    ensures var end := Match(ds, s, i, acc).value.1; i < end && LitMatches(c, s[end - 1])
    decreases |ds|
  {
    var (acc', j) := Step(ds[0], |ds| == 1, s, i, acc).value;
    if |ds| > 1 {
      assert ds[1..][|ds| - 2] == ds[|ds| - 1];
      MatchEndsWithLit(ds[1..], c, s, j, acc');
    }
  }

  /** A text `strptime` accepts for a format that ends in a literal ends on a character the literal accepts. */
  lemma ParseEndsWithLit(ds: seq<Directive>, c: char, s: string)
    requires |ds| > 0 && ds[|ds| - 1] == Lit(c) && Parse(ds, s).Some?
    ensures |s| > 0 && LitMatches(c, s[|s| - 1])
  {
    MatchEndsWithLit(ds, c, s, 0, Defaults);
  }

  /** Every value the video branch accepts ends in `Z`, in either case. */
  lemma VideoNeedsZ(s: string)
    requires Parse(FfmpegFormat, s).Some?
    ensures |s| > 0 && (s[|s| - 1] == 'Z' || s[|s| - 1] == 'z')
  {
    IsoFormatsShareCore();
    ParseEndsWithLit(FfmpegFormat, 'Z', s);
  }

  /** A match of a format with a literal right before `%f` has, somewhere, that literal followed by a digit. */
  lemma {:induction false} MatchHasLit(ds: seq<Directive>, p: nat, c: char, s: string, i: nat, acc: DateTime)
    requires i <= |s| && p + 1 < |ds| && ds[p] == Lit(c) && ds[p + 1] == Fraction
    requires Match(ds, s, i, acc).Some?
    ensures exists k :: i <= k && k + 1 < |s| && LitMatches(c, s[k]) && IsDigit(s[k + 1])
    decreases |ds|
  {
    var (acc', j) := Step(ds[0], |ds| == 1, s, i, acc).value;
    if p == 0 {
      assert j == i + 1 && LitMatches(c, s[i]);
      assert Step(ds[1..][0], |ds[1..]| == 1, s, j, acc').Some?;
      var run := DigitRunEnd(s, j);
      assert run > j;
      assert s[j..run][0] == s[j];
    } else {
      assert ds[1..][p - 1] == Lit(c) && ds[1..][p] == Fraction;
      MatchHasLit(ds[1..], p - 1, c, s, j, acc');
    }
  }

  /**
   * Every value the video branch accepts has fractional seconds: a '.' followed by a digit.
   * A value without them, such as "2022-1-5T8:15:00Z", is refused however its fields are written.
   */
  lemma VideoNeedsFraction(s: string)
    requires Parse(FfmpegFormat, s).Some?
    ensures exists k :: 0 <= k && k + 1 < |s| && s[k] == '.' && IsDigit(s[k + 1])
  {
    assert FfmpegFormat[11] == Lit('.') && FfmpegFormat[12] == Fraction;
    MatchHasLit(FfmpegFormat, 11, '.', s, 0, Defaults);
  }

  /** A missing probe or a report without `creation_time` is an error, whatever the write does. */
  lemma VideoNotFound(probe: Option<string>, written: bool)
    requires probe.None? || forall i :: 0 <= i <= |probe.value| ==> CreationTimeAt(probe.value, i).None?
    ensures ShiftVideo(probe, written) == Failed(if probe.None? then ProbeFailed else NoCreationTime)
  {
  }

  /** 2022-03-10 08:15:00, the documented EXIF example, becomes 2024-03-08 07:15:00 across 2024's leap day. */
  lemma LeapYearShift(t: DateTime)
    requires t == DateTime(2022, 3, 10, 8, 15, 0, 0)
    ensures Shifted(t) == Some(DateTime(2024, 3, 8, 7, 15, 0, 0))
  {
    var r := DateTime(2024, 3, 8, 7, 15, 0, 0);
    DaysBeforeYearStep(2022);
    DaysBeforeYearStep(2023);
    AddSecondsExact(t, ShiftSeconds, r);
  }

  /** New Year's Day 2022 at midnight becomes 2023-12-30 23:00:00: two days short of two years. */
  lemma NewYearShift(t: DateTime)
    requires t == DateTime(2022, 1, 1, 0, 0, 0, 0)
    ensures Shifted(t) == Some(DateTime(2023, 12, 30, 23, 0, 0, 0))
  {
    var r := DateTime(2023, 12, 30, 23, 0, 0, 0);
    DaysBeforeYearStep(2022);
    AddSecondsExact(t, ShiftSeconds, r);
  }

  /** A blank `creation_time` value is found, and then refused by `strptime`. */
  lemma VideoBlankValue(report: string, i: nat, a: nat, written: bool)
    requires KeyAt(report, i) && i + |Key| <= a < |report| - 1
    requires AllSpace(report[i + |Key|..a]) && report[a] == ':'
    requires AllSpace(report[a + 1..]) && report[|report| - 1] != '\n'
    requires forall k :: 0 <= k < i ==> CreationTimeAt(report, k).None?
    ensures ShiftVideo(Some(report), written) == Failed(Unparsable(""))
  {
    CreationTimeBlankFirst(report, i, a);
    FfmpegRefusesEmpty();
  }

  lemma FfmpegRefusesEmpty()
    ensures Parse(FfmpegFormat, "") == None
  {
    assert FfmpegFormat[0] == Year;
  }
}
