/**
 * The date-and-time pattern both filename scripts search for,
 * `(\d{4})-(\d{2})-(\d{2})\s+(\d{2})\.(\d{2})\.(\d{2})`, anchored at one position of a
 * file name, and the `datetime` built from its six groups.
 *
 * Each `\s+` of the scripts' patterns is followed by something that cannot be whitespace
 * (a digit or a letter), so the greedy run can only end where the whitespace ends and the
 * regular expression never has a second way to match at the same position.
 */
module DatePattern {
  import opened Wrappers
  import opened Text
  import opened Scan
  import opened Calendar

  /** The six captured groups, as `int()` reads them. */
  datatype Fields = Fields(year: nat, month: nat, day: nat, hour: nat, minute: nat, second: nat)

  /** What extracting a date from a file name comes to. */
  datatype Extraction =
    | NoDate                  // no pattern matched: the function returns `None`
    | Found(when: DateTime)   // the groups name a real date and time
    | Invalid(fields: Fields) // `datetime(...)` raises `ValueError` on the groups

  /** `datetime(year, month, day, hour, minute, second)` of the groups. */
  function Construct(f: Fields): (r: Extraction)
    ensures r.Found? || r == Invalid(f)
    ensures r.Found? ==> Valid(r.when) && r.when.micro == 0
  {
    match MakeDateTime(f.year, f.month, f.day, f.hour, f.minute, f.second, 0)
    case Some(t) => Found(t)
    case None => Invalid(f)
  }

  /** The groups a `datetime` would show. */
  function FieldsOf(t: DateTime): Fields
    requires Valid(t)
  {
    Fields(t.year, t.month, t.day, t.hour, t.minute, t.second)
  }

  /** The groups name a date and time exactly when they are the fields of one, and then that one. */
  lemma ConstructFound(f: Fields, t: DateTime)
    ensures Construct(f) == Found(t) <==> Valid(t) && t.micro == 0 && FieldsOf(t) == f
  {
    MakeDateTimeAccepts(f.year, f.month, f.day, f.hour, f.minute, f.second, 0);
  }

  /** `\s+` at `i`: where the greedy run of whitespace ends, if there is any. */
  function SpacesAt(s: string, i: nat): (r: Option<nat>)
    requires i <= |s|
    ensures r.Some? <==> i < |s| && IsSpace(s[i])
    ensures r.Some? ==> i < r.value <= |s| && r.value == SpaceRunEnd(s, i)
  {
    var j := SpaceRunEnd(s, i);
    if j > i then Some(j) else None
  }

  /** `(\d{4})-(\d{2})-(\d{2})` at `i`: year, month and day. */
  function DateAt(s: string, i: nat): (r: Option<(nat, nat, nat)>)
    ensures r.Some? ==> i + 10 <= |s|
  {
    if && DigitsAt(s, i, 4) && CharAt(s, i + 4, '-')
       && DigitsAt(s, i + 5, 2) && CharAt(s, i + 7, '-')
       && DigitsAt(s, i + 8, 2)
    then Some((FieldValue(s, i, 4), FieldValue(s, i + 5, 2), FieldValue(s, i + 8, 2)))
    else None
  }

  /** `(\d{2})\.(\d{2})\.(\d{2})` at `i`: hour, minute and second. */
  function ClockAt(s: string, i: nat): (r: Option<(nat, nat, nat)>)
    ensures r.Some? ==> i + 8 <= |s|
  {
    if && DigitsAt(s, i, 2) && CharAt(s, i + 2, '.')
       && DigitsAt(s, i + 3, 2) && CharAt(s, i + 5, '.')
       && DigitsAt(s, i + 6, 2)
    then Some((FieldValue(s, i, 2), FieldValue(s, i + 3, 2), FieldValue(s, i + 6, 2)))
    else None
  }

  /** The whole 24-hour pattern anchored at `i`: the six groups and where the match ends. */
  function Core24At(s: string, i: nat): (r: Option<(Fields, nat)>)
    ensures r.Some? ==> i + 19 <= r.value.1 <= |s|
  {
    match DateAt(s, i)
    case None => None
    case Some((y, mo, d)) =>
      match SpacesAt(s, i + 10)
      case None => None
      case Some(j) =>
        match ClockAt(s, j)
        case None => None
        case Some((h, mi, sec)) => Some((Fields(y, mo, d, h, mi, sec), j + 8))
  }

  /**
   * The 24-hour pattern matches at `i` with the whitespace ending at `j` exactly when the date
   * sits at `i`, whitespace fills `i + 10 .. j`, and the clock sits at `j`: a match, when
   * there is one, is the only one, and it ends eight characters after the whitespace.
   */
  lemma Core24Exactly(s: string, i: nat, j: nat)
    requires i + 10 < j <= |s|
    ensures
      (&& DateAt(s, i).Some? && AllSpace(s[i + 10..j]) && ClockAt(s, j).Some?)
      <==>
      (&& Core24At(s, i).Some? && Core24At(s, i).value.1 == j + 8)
    ensures Core24At(s, i).Some? && Core24At(s, i).value.1 == j + 8 ==>
      var (y, mo, d) := DateAt(s, i).value;
      var (h, mi, sec) := ClockAt(s, j).value;
      Core24At(s, i).value.0 == Fields(y, mo, d, h, mi, sec)
  {
    if DateAt(s, i).Some? && AllSpace(s[i + 10..j]) && ClockAt(s, j).Some? {
      assert !IsSpace(s[j]);
      SpaceRunUnique(s, i + 10, j);
    }
  }

  /** `re.search` of the 24-hour pattern: where it first matches, the groups and the end. */
  function Search24(s: string): (r: Option<(nat, (Fields, nat))>)
    ensures r.None? <==> forall i :: 0 <= i <= |s| ==> Core24At(s, i).None?
    ensures r.Some? ==>
      && Core24At(s, r.value.0) == Some(r.value.1)
      && forall i :: 0 <= i < r.value.0 ==> Core24At(s, i).None?
  {
    Leftmost(s, 0, Core24At)
  }

  /** Nothing can start the pattern at a position that does not hold a digit. */
  lemma Core24NeedsDigit(s: string, i: nat)
    requires i >= |s| || !IsDigit(s[i])
    ensures Core24At(s, i).None?
  {
  }

  /** A single whitespace character before something else is the whole `\s+`. */
  lemma OneSpace(s: string, i: nat)
    requires i + 1 < |s| && IsSpace(s[i]) && !IsSpace(s[i + 1])
    ensures SpacesAt(s, i) == Some(i + 1)
  {
    assert AllSpace(s[i..i + 1]) by {
      assert s[i..i + 1][0] == s[i];
    }
    SpaceRunUnique(s, i, i + 1);
  }

  /** The date groups read off the ten characters "YYYY-MM-DD". */
  lemma DateAtChars(s: string, i: nat)
    requires i + 10 <= |s|
    requires IsDigit(s[i]) && IsDigit(s[i + 1]) && IsDigit(s[i + 2]) && IsDigit(s[i + 3])
    requires s[i + 4] == '-' && IsDigit(s[i + 5]) && IsDigit(s[i + 6])
    requires s[i + 7] == '-' && IsDigit(s[i + 8]) && IsDigit(s[i + 9])
    ensures DateAt(s, i) == Some((
      DigitValue(s[i]) * 1000 + DigitValue(s[i + 1]) * 100 + DigitValue(s[i + 2]) * 10 + DigitValue(s[i + 3]),
      DigitValue(s[i + 5]) * 10 + DigitValue(s[i + 6]),
      DigitValue(s[i + 8]) * 10 + DigitValue(s[i + 9])))
  {
    FourDigits(s, i);
    TwoDigits(s, i + 5);
    TwoDigits(s, i + 8);
  }

  /** The clock groups read off the eight characters "HH.MM.SS". */
  lemma ClockAtChars(s: string, i: nat)
    requires i + 8 <= |s|
    requires IsDigit(s[i]) && IsDigit(s[i + 1]) && s[i + 2] == '.'
    requires IsDigit(s[i + 3]) && IsDigit(s[i + 4]) && s[i + 5] == '.'
    requires IsDigit(s[i + 6]) && IsDigit(s[i + 7])
    ensures ClockAt(s, i) == Some((
      DigitValue(s[i]) * 10 + DigitValue(s[i + 1]),
      DigitValue(s[i + 3]) * 10 + DigitValue(s[i + 4]),
      DigitValue(s[i + 6]) * 10 + DigitValue(s[i + 7])))
  {
    TwoDigits(s, i);
    TwoDigits(s, i + 3);
    TwoDigits(s, i + 6);
  }

  /** A match needs the date's two dashes and whitespace right after the date. */
  lemma Core24Shape(s: string, i: nat)
    ensures Core24At(s, i).Some? ==>
      && i + 10 < |s| && IsDigit(s[i]) && s[i + 4] == '-' && s[i + 7] == '-' && IsSpace(s[i + 10])
      && ClockAt(s, SpaceRunEnd(s, i + 10)).Some?
  {
  }
}
