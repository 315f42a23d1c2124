/**
 * `extract_date_from_filename` of the photo-and-video script: the 24-hour pattern first,
 * unless AM or PM follows it somewhere, then the 12-hour "at" pattern
 * `(\d{4})-(\d{2})-(\d{2})\s+at\s+(\d{1,2})\.(\d{2})\.(\d{2})\s+(AM|PM)` without case.
 */
module CreationName {
  import opened Wrappers
  import opened Text
  import opened Scan
  import opened Calendar
  import opened DatePattern

  datatype Meridiem = AM | PM

  /** `\s+(AM|PM)` anchored at `i`, without case. */
  function MeridiemAt(s: string, i: nat): (r: Option<Meridiem>)
    ensures r.Some? ==> i < |s| && IsSpace(s[i])
  {
    if i > |s| then None
    else
      match SpacesAt(s, i)
      case None => None
      case Some(j) =>
        if j + 2 <= |s| && SameLetterIgnoringCase(s[j + 1], 'm') then
          if SameLetterIgnoringCase(s[j], 'a') then Some(AM)
          else if SameLetterIgnoringCase(s[j], 'p') then Some(PM)
          else None
        else None
  }

  /**
   * `re.search(r'\s+(AM|PM)', remaining, re.IGNORECASE)` on what follows the 24-hour match.
   * The pattern looks only forward, so searching the rest of the name from `end` is
   * searching the remaining text.
   */
  predicate MeridiemAfter(s: string, end: nat)
    requires end <= |s|
  {
    Leftmost(s, end, MeridiemAt).Some?
  }

  /** `\d{1,2}` followed by a non-digit: how many digits the greedy field takes, 0 if none. */
  function HourWidth(s: string, i: nat): (n: nat)
    ensures n <= 2 && (n > 0 ==> DigitsAt(s, i, n))
    ensures n == 0 <==> !DigitsAt(s, i, 1)
    ensures DigitsAt(s, i, 2) ==> n == 2
  {
    if DigitsAt(s, i, 2) then
      assert s[i..i + 1][0] == s[i..i + 2][0];
      2
    else if DigitsAt(s, i, 1) then 1 else 0
  }

  /**
   * The 12-hour pattern anchored at `i`: the groups with the hour as written, and AM or PM.
   * A two-digit hour followed by something other than `.` fails here: giving back its second
   * digit would leave a digit where the `.` must be.
   */
  function TwelveHourAt(s: string, i: nat): (r: Option<(Fields, Meridiem)>)
  {
    match DateAt(s, i)
    case None => None
    case Some((y, mo, d)) =>
      match SpacesAt(s, i + 10)
      case None => None
      case Some(j) =>
        if j + 2 <= |s| && SameLetterIgnoringCase(s[j], 'a') && SameLetterIgnoringCase(s[j + 1], 't') then
          match SpacesAt(s, j + 2)
          case None => None
          case Some(k) =>
            match HourClockAt(s, k)
            case None => None
            case Some((h, mi, sec, m)) => Some((Fields(y, mo, d, h, mi, sec), m))
        else None
  }

  /** `(\d{1,2})\.(\d{2})\.(\d{2})\s+(AM|PM)` anchored at `k`: hour, minute, second, and AM or PM. */
  function HourClockAt(s: string, k: nat): Option<(nat, nat, nat, Meridiem)> {
    var n := HourWidth(s, k);
    if && n > 0 && CharAt(s, k + n, '.')
       && DigitsAt(s, k + n + 1, 2) && CharAt(s, k + n + 3, '.')
       && DigitsAt(s, k + n + 4, 2)
    then
      match MeridiemAt(s, k + n + 6)
      case None => None
      case Some(m) => Some((FieldValue(s, k, n), FieldValue(s, k + n + 1, 2), FieldValue(s, k + n + 4, 2), m))
    else None
  }

  /** The script's 12-hour to 24-hour conversion of the hour as written. */
  function To24Hour(hour: nat, m: Meridiem): nat {
    if m == PM && hour != 12 then hour + 12
    else if m == AM && hour == 12 then 0
    else hour
  }

  /** How a 24-hour clock reading is written on a 12-hour clock. */
  function From24Hour(hour: nat): (Meridiem, nat)
    requires hour < 24
  {
    (if hour < 12 then AM else PM, if hour % 12 == 0 then 12 else hour % 12)
  }

  /**
   * The conversion is the usual clock table: 12 AM is midnight, 1-11 AM are the morning hours,
   * 12 PM is noon and 1-11 PM are 13-23; every 24-hour reading comes from exactly one
   * 12-hour one.
   */
  lemma HourTable(hour: nat, m: Meridiem)
    requires 1 <= hour <= 12
    ensures To24Hour(hour, m) < 24
    ensures From24Hour(To24Hour(hour, m)) == (m, hour)
    ensures m == AM ==> To24Hour(hour, m) == hour % 12
    ensures m == PM ==> To24Hour(hour, m) == hour % 12 + 12
  {
  }

  lemma HourTableOnto(h24: nat)
    requires h24 < 24
    ensures var (m, hour) := From24Hour(h24); 1 <= hour <= 12 && To24Hour(hour, m) == h24
  {
  }

  /**
   * Outside 1-12 the conversion still runs: hour 0 is kept with AM and becomes 12 with PM,
   * and 13 or more gains 12 with PM, which `datetime` then rejects.
   */
  lemma HoursOutsideTheClock(hour: nat)
    ensures To24Hour(0, AM) == 0 && To24Hour(0, PM) == 12
    ensures hour > 12 ==> To24Hour(hour, AM) == hour && To24Hour(hour, PM) >= 25
  {
  }

  /** The second attempt: the 12-hour pattern anywhere in the name. */
  function TwelveHour(name: string): (r: Extraction)
    ensures r.NoDate? <==> forall i :: 0 <= i <= |name| ==> TwelveHourAt(name, i).None?
    ensures r.Found? ==> Valid(r.when) && r.when.micro == 0
  {
    match Leftmost(name, 0, TwelveHourAt)
    case None => NoDate
    case Some((_, (f, m))) => Construct(f.(hour := To24Hour(f.hour, m)))
  }

  /** `extract_date_from_filename(name)`. */
  function Extract(name: string): (r: Extraction)
    ensures r.Found? ==> Valid(r.when) && r.when.micro == 0
  {
    match Search24(name)
    case Some((_, (f, end))) =>
      if end < |name| then
        if MeridiemAfter(name, end) then TwelveHour(name) else Construct(f)
      else Construct(f)
    case None => TwelveHour(name)
  }

  /** With no AM or PM anywhere after it, the first 24-hour match is the reading. */
  lemma TwentyFourHourReading(name: string, i: nat, f: Fields, end: nat)
    requires Search24(name) == Some((i, (f, end)))
    requires forall k :: end <= k <= |name| ==> MeridiemAt(name, k).None?
    ensures Extract(name) == Construct(f)
  {
  }

  /** AM or PM anywhere after the first 24-hour match hands the name to the 12-hour pattern. */
  lemma MeridiemDefers(name: string, i: nat, f: Fields, end: nat, k: nat)
    requires Search24(name) == Some((i, (f, end)))
    requires end <= k <= |name| && MeridiemAt(name, k).Some?
    ensures Extract(name) == TwelveHour(name)
  {
  }

  /** A 12-hour match needs the date's two dashes, then whitespace, then "at" in some case. */
  lemma TwelveHourShape(s: string, i: nat)
    ensures TwelveHourAt(s, i).Some? ==>
      && i + 10 < |s| && IsDigit(s[i]) && s[i + 4] == '-' && s[i + 7] == '-' && IsSpace(s[i + 10])
      && SpaceRunEnd(s, i + 10) < |s| && SameLetterIgnoringCase(s[SpaceRunEnd(s, i + 10)], 'a')
  {
  }

  /** AM or PM needs whitespace and then an `a` or a `p`, in some case, followed by one more character. */
  lemma MeridiemShape(s: string, i: nat)
    ensures MeridiemAt(s, i).Some? ==>
      && i < |s| && IsSpace(s[i]) && SpaceRunEnd(s, i) + 2 <= |s|
      && (SameLetterIgnoringCase(s[SpaceRunEnd(s, i)], 'a') || SameLetterIgnoringCase(s[SpaceRunEnd(s, i)], 'p'))
  {
  }

  /** `\s+(AM|PM)` accepts whitespace and then the two letters in any case: "pm", " Am" and " PM" alike. */
  lemma MeridiemExactly(s: string, i: nat, m: Meridiem)
    ensures MeridiemAt(s, i) == Some(m) <==>
      && i < |s| && IsSpace(s[i])
      && var j := SpaceRunEnd(s, i);
         && j + 2 <= |s|
         && SameLetterIgnoringCase(s[j], if m == AM then 'a' else 'p')
         && SameLetterIgnoringCase(s[j + 1], 'm')
  {
  }

  /**
   * The 12-hour pattern laid out at `i`: the date, whitespace up to `j`, "at" in any case,
   * whitespace up to `k`, an hour of `n` digits, ".MM.SS", and AM or PM.
   */
  predicate TwelveHourLayout(s: string, i: nat, j: nat, k: nat, n: nat) {
    && i + 10 < j && j + 2 < k <= |s| && 1 <= n <= 2
    && DateAt(s, i).Some?
    && AllSpace(s[i + 10..j])
    && SameLetterIgnoringCase(s[j], 'a') && SameLetterIgnoringCase(s[j + 1], 't')
    && AllSpace(s[j + 2..k])
    && DigitsAt(s, k, n) && CharAt(s, k + n, '.')
    && DigitsAt(s, k + n + 1, 2) && CharAt(s, k + n + 3, '.')
    && DigitsAt(s, k + n + 4, 2)
    && MeridiemAt(s, k + n + 6).Some?
  }

  /** A layout of the 12-hour pattern is a match, with the groups its digits spell. */
  lemma TwelveHourExactly(s: string, i: nat, j: nat, k: nat, n: nat)
    requires TwelveHourLayout(s, i, j, k, n)
    ensures var (y, mo, d) := DateAt(s, i).value;
      TwelveHourAt(s, i) == Some((
        Fields(y, mo, d, FieldValue(s, k, n), FieldValue(s, k + n + 1, 2), FieldValue(s, k + n + 4, 2)),
        MeridiemAt(s, k + n + 6).value))
  {
    TwelveHourPositions(s, i, j, k, n);
    TwelveHourFromRuns(s, i, j, k, n);
  }

  /** In a layout, the whitespace runs end at `j` and `k`, and the hour is `n` digits wide. */
  lemma TwelveHourPositions(s: string, i: nat, j: nat, k: nat, n: nat)
    requires TwelveHourLayout(s, i, j, k, n)
    ensures SpacesAt(s, i + 10) == Some(j) && SpacesAt(s, j + 2) == Some(k) && HourWidth(s, k) == n
  {
    assert !IsSpace(s[j]) && !IsSpace(s[k]);
    SpaceRunUnique(s, i + 10, j);
    SpaceRunUnique(s, j + 2, k);
    if n == 1 {
      assert s[k..k + 2][1] == s[k + 1] == '.';
    }
  }

  /** The match read off the ends of the two whitespace runs and the hour's width. */
  lemma TwelveHourFromRuns(s: string, i: nat, j: nat, k: nat, n: nat)
    requires DateAt(s, i).Some? && SpacesAt(s, i + 10) == Some(j)
    requires j + 2 <= |s| && SameLetterIgnoringCase(s[j], 'a') && SameLetterIgnoringCase(s[j + 1], 't')
    requires SpacesAt(s, j + 2) == Some(k) && HourWidth(s, k) == n && n > 0
    requires CharAt(s, k + n, '.') && DigitsAt(s, k + n + 1, 2) && CharAt(s, k + n + 3, '.')
    requires DigitsAt(s, k + n + 4, 2) && MeridiemAt(s, k + n + 6).Some?
    ensures var (y, mo, d) := DateAt(s, i).value;
      TwelveHourAt(s, i) == Some((
        Fields(y, mo, d, FieldValue(s, k, n), FieldValue(s, k + n + 1, 2), FieldValue(s, k + n + 4, 2)),
        MeridiemAt(s, k + n + 6).value))
  {
    assert HourClockAt(s, k) == Some((
      FieldValue(s, k, n), FieldValue(s, k + n + 1, 2), FieldValue(s, k + n + 4, 2),
      MeridiemAt(s, k + n + 6).value));
  }

  /** Every match has a layout: the whitespace runs end where `\s+` stops, the hour is as wide as it reads. */
  lemma TwelveHourHasLayout(s: string, i: nat) returns (j: nat, k: nat, n: nat)
    requires TwelveHourAt(s, i).Some?
    ensures TwelveHourLayout(s, i, j, k, n)
  {
    j, k := TwelveHourRuns(s, i);
    n := HourWidth(s, k);
    HourClockShape(s, k);
  }

  /** The two whitespace runs of a match, around "at". */
  lemma TwelveHourRuns(s: string, i: nat) returns (j: nat, k: nat)
    requires TwelveHourAt(s, i).Some?
    ensures DateAt(s, i).Some? && i + 10 < j && j + 2 < k <= |s|
    ensures AllSpace(s[i + 10..j]) && AllSpace(s[j + 2..k])
    ensures SameLetterIgnoringCase(s[j], 'a') && SameLetterIgnoringCase(s[j + 1], 't')
    ensures HourClockAt(s, k).Some?
  {
    j := SpacesAt(s, i + 10).value;
    k := SpacesAt(s, j + 2).value;
  }

  /** A clock match is laid out by the hour's width. */
  lemma HourClockShape(s: string, k: nat)
    requires HourClockAt(s, k).Some?
    ensures var n := HourWidth(s, k);
      && n > 0 && DigitsAt(s, k, n) && CharAt(s, k + n, '.')
      && DigitsAt(s, k + n + 1, 2) && CharAt(s, k + n + 3, '.') && DigitsAt(s, k + n + 4, 2)
      && MeridiemAt(s, k + n + 6).Some?
  {
  }

  /** The 12-hour pattern matches at `i` exactly when some layout of it starts there. */
  lemma TwelveHourIffLayout(s: string, i: nat)
    ensures TwelveHourAt(s, i).Some? <==> exists j: nat, k: nat, n: nat :: TwelveHourLayout(s, i, j, k, n)
  {
    if TwelveHourAt(s, i).Some? {
      var j, k, n := TwelveHourHasLayout(s, i);
    } else {
      forall j: nat, k: nat, n: nat | TwelveHourLayout(s, i, j, k, n)
        ensures false
      {
        TwelveHourExactly(s, i, j, k, n);
      }
    }
  }

  /**
   * The leftmost 12-hour match gives the name's date: its date, minute and second as
   * written, and its hour converted by AM or PM.
   */
  lemma TwelveHourReading(name: string, i: nat, f: Fields, m: Meridiem)
    requires i <= |name| && TwelveHourAt(name, i) == Some((f, m))
    requires forall k :: 0 <= k < i ==> TwelveHourAt(name, k).None?
    ensures TwelveHour(name) == Construct(f.(hour := To24Hour(f.hour, m)))
  {
    LeftmostFirst(name, 0, TwelveHourAt, i);
  }
}
