/**
 * `strftime` and `strptime` for the three formats the scripts use:
 *   "%Y:%m:%d %H:%M:%S"      (EXIF, read from and written to photos),
 *   "%Y-%m-%dT%H:%M:%S.%fZ"  (ffmpeg's creation_time, read from videos),
 *   "%Y-%m-%dT%H:%M:%SZ"     (written to videos).
 * A format is a list of directives. `strptime` turns a format into a regular expression
 * (a space becomes `\s+`, literals match without case), matches it at the start of the
 * text, requires the match to use the whole text, and then builds a `datetime`.
 */
module TimeFormat {
  import opened Wrappers
  import opened Text
  import opened Scan
  import opened Calendar

  datatype Directive =
    | Year        // %Y
    | Month       // %m
    | Day         // %d
    | Hour        // %H
    | Minute      // %M
    | Second      // %S
    | Fraction    // %f
    | Spaces      // a space in the format
    | Lit(c: char)
  {
    /** The directives read by a two-digit regular expression with alternatives. */
    predicate IsShortField() {
      Month? || Day? || Hour? || Minute? || Second?
    }
  }

  /** "%Y:%m:%d %H:%M:%S" */
  const ExifFormat: seq<Directive> :=
    [Year, Lit(':'), Month, Lit(':'), Day, Spaces, Hour, Lit(':'), Minute, Lit(':'), Second]

  /** "%Y-%m-%dT%H:%M:%S", the part the two ISO formats share. */
  const IsoCore: seq<Directive> :=
    [Year, Lit('-'), Month, Lit('-'), Day, Lit('T'), Hour, Lit(':'), Minute, Lit(':'), Second]

  /** "%Y-%m-%dT%H:%M:%S.%fZ" */
  const FfmpegFormat: seq<Directive> :=
    [Year, Lit('-'), Month, Lit('-'), Day, Lit('T'), Hour, Lit(':'), Minute, Lit(':'), Second,
     Lit('.'), Fraction, Lit('Z')]

  /** "%Y-%m-%dT%H:%M:%SZ" */
  const UtcFormat: seq<Directive> :=
    [Year, Lit('-'), Month, Lit('-'), Day, Lit('T'), Hour, Lit(':'), Minute, Lit(':'), Second, Lit('Z')]

  /**
   * The formats this module models exactly: every two-digit field is followed by a literal
   * that is not a digit or by a space, a space by something other than a space, and a
   * fraction by a literal or nothing; literals are neither digits nor whitespace.
   */
  predicate Separated(ds: seq<Directive>)
    decreases |ds|
  {
    || |ds| == 0
    || (&& (ds[0].Lit? ==> !IsDigit(ds[0].c) && !IsSpace(ds[0].c))
        && (|ds| == 1 || Follows(ds[0], ds[1]))
        && Separated(ds[1..]))
  }

  /** What may come right after a directive in a separated format. */
  predicate Follows(d: Directive, next: Directive) {
    && (d.IsShortField() ==> next.Lit? || next.Spaces?)
    && (d.Fraction? ==> next.Lit?)
    && (d.Spaces? ==> !next.Spaces?)
  }

  lemma {:induction false} SeparatedAppend(a: seq<Directive>, b: seq<Directive>)
    requires Separated(a) && Separated(b)
    requires |a| == 0 || |b| == 0 || Follows(a[|a| - 1], b[0])
    ensures Separated(a + b)
    decreases |a|
  {
    if |a| == 0 {
      assert a + b == b;
    } else {
      var rest := a[1..];
      assert (a + b)[0] == a[0];
      assert (a + b)[1..] == rest + b;
      if |a| == 1 {
        assert rest + b == b;
      } else {
        assert rest[|rest| - 1] == a[|a| - 1];
        assert (a + b)[1] == a[1];
        SeparatedAppend(rest, b);
      }
    }
  }

  /** "%H:%M:%S" */
  const ClockFormat: seq<Directive> := [Hour, Lit(':'), Minute, Lit(':'), Second]

  lemma ClockSeparated()
    ensures Separated(ClockFormat)
  {
  }

  lemma ExifFormatSeparated()
    ensures Separated(ExifFormat)
  {
    var date := [Year, Lit(':'), Month, Lit(':'), Day, Spaces];
    assert Separated(date);
    ClockSeparated();
    assert ExifFormat == date + ClockFormat;
    SeparatedAppend(date, ClockFormat);
  }

  lemma IsoCoreSeparated()
    ensures Separated(IsoCore)
  {
    var date := [Year, Lit('-'), Month, Lit('-'), Day, Lit('T')];
    assert Separated(date);
    ClockSeparated();
    assert IsoCore == date + ClockFormat;
    SeparatedAppend(date, ClockFormat);
  }

  /** Both ISO formats are the shared part followed by their own ending. */
  lemma IsoFormatsShareCore()
    ensures FfmpegFormat == IsoCore + [Lit('.'), Fraction, Lit('Z')]
    ensures UtcFormat == IsoCore + [Lit('Z')]
  {
  }

  lemma IsoFormatsSeparated()
    ensures Separated(FfmpegFormat) && Separated(UtcFormat)
  {
    FfmpegSeparated();
    UtcSeparated();
  }

  lemma FfmpegSeparated()
    ensures Separated(FfmpegFormat)
  {
    IsoCoreSeparated();
    IsoFormatsShareCore();
    assert Separated([Lit('.'), Fraction, Lit('Z')]);
    SeparatedAppend(IsoCore, [Lit('.'), Fraction, Lit('Z')]);
  }

  lemma UtcSeparated()
    ensures Separated(UtcFormat)
  {
    IsoCoreSeparated();
    IsoFormatsShareCore();
    assert Separated([Lit('Z')]);
    SeparatedAppend(IsoCore, [Lit('Z')]);
  }

  // ---------------------------------------------------------------- strftime

  /** What `strftime` writes for one directive. */
  function Piece(d: Directive, t: DateTime): string
    requires Valid(t)
  {
    match d
    case Year => Pad(t.year, 4)
    case Month => Pad(t.month, 2)
    case Day => Pad(t.day, 2)
    case Hour => Pad(t.hour, 2)
    case Minute => Pad(t.minute, 2)
    case Second => Pad(t.second, 2)
    case Fraction => Pad(t.micro, 6)
    case Spaces => " "
    case Lit(c) => [c]
  }

  /** `t.strftime(format)`. */
  function Render(ds: seq<Directive>, t: DateTime): string
    requires Valid(t)
  {
    if |ds| == 0 then "" else Piece(ds[0], t) + Render(ds[1..], t)
  }

  // ---------------------------------------------------------------- strptime

  /** A literal of the format against a character of the text, under `re.IGNORECASE`. */
  predicate LitMatches(c: char, x: char) {
    || x == c
    || ('a' <= c <= 'z' && x as int == c as int - 32)
    || ('A' <= c <= 'Z' && x as int == c as int + 32)
  }

  /** A two-character alternative of the directive's expression matches `a b`. */
  predicate TwoCharAlternative(d: Directive, a: char, b: char) {
    match d
    case Month =>    // 1[0-2]|0[1-9]|[1-9]
      (a == '1' && '0' <= b <= '2') || (a == '0' && '1' <= b <= '9')
    case Day =>      // 3[01]|[12]\d|0[1-9]|[1-9]| [1-9]
      || (a == '3' && (b == '0' || b == '1'))
      || ((a == '1' || a == '2') && IsDigit(b))
      || (a == '0' && '1' <= b <= '9')
      || (a == ' ' && '1' <= b <= '9')
    case Hour =>     // 2[0-3]|[0-1]\d|\d
      (a == '2' && '0' <= b <= '3') || ((a == '0' || a == '1') && IsDigit(b))
    case Minute =>   // [0-5]\d|\d
      '0' <= a <= '5' && IsDigit(b)
    case Second =>   // 6[0-1]|[0-5]\d|\d
      (a == '6' && (b == '0' || b == '1')) || ('0' <= a <= '5' && IsDigit(b))
    case _ => false
  }

  /** A one-character alternative of the directive's expression matches `a`. */
  predicate OneCharAlternative(d: Directive, a: char) {
    match d
    case Month => '1' <= a <= '9'
    case Day => '1' <= a <= '9'
    case Hour => IsDigit(a)
    case Minute => IsDigit(a)
    case Second => IsDigit(a)
    case _ => false
  }

  /**
   * Characters a two-digit field takes at `i`, or 0 when it does not match. Every
   * two-character alternative ends in a digit and, in a separated format, what follows the
   * field cannot start with a digit; so backtracking from a two-character alternative to a
   * one-character one never succeeds, and the regular expression's ordered choice with
   * backtracking comes down to "two characters if some two-character alternative matches".
   */
  function FieldWidth(d: Directive, s: string, i: nat): (n: nat)
    requires i <= |s|
    ensures n <= 2 && i + n <= |s|
  {
    if i + 2 <= |s| && TwoCharAlternative(d, s[i], s[i + 1]) then 2
    else if i + 1 <= |s| && OneCharAlternative(d, s[i]) then 1
    else 0
  }

  /** `int()` of a field's text; `int` skips the leading space of a day such as " 5". */
  function TextValue(text: string): nat
    requires |text| > 0 && (IsDigit(text[0]) || text[0] == ' ') && AllDigits(text[1..])
  {
    if text[0] == ' ' then Value(text[1..])
    else
      assert text == [text[0]] + text[1..];
      Value(text)
  }

  /** Stores the value read for a directive. */
  function Store(acc: DateTime, d: Directive, v: int): DateTime {
    match d
    case Year => acc.(year := v)
    case Month => acc.(month := v)
    case Day => acc.(day := v)
    case Hour => acc.(hour := v)
    case Minute => acc.(minute := v)
    case Second => acc.(second := v)
    case Fraction => acc.(micro := v)
    case _ => acc
  }

  /**
   * One directive's part of the regular expression at `i`: the reading stored into `acc` and
   * where the part ends. `last` says the directive ends the format.
   */
  function Step(d: Directive, last: bool, s: string, i: nat, acc: DateTime): (r: Option<(DateTime, nat)>)
    requires i <= |s|
    ensures r.Some? ==> i < r.value.1 <= |s|
  {
    match d
    case Lit(c) =>
      if i < |s| && LitMatches(c, s[i]) then Some((acc, i + 1)) else None
    case Spaces =>     // \s+, greedy
      var j := SpaceRunEnd(s, i);
      if j > i then Some((acc, j)) else None
    case Year =>       // \d\d\d\d
      if DigitsAt(s, i, 4) then Some((Store(acc, Year, Value(s[i..i + 4])), i + 4)) else None
    case Fraction =>   // [0-9]{1,6}, greedy, padded with zeros on the right
      ReadFraction(last, s, i, acc)
    case _ =>
      ReadField(d, s, i, acc)
  }

  function ReadFraction(last: bool, s: string, i: nat, acc: DateTime): (r: Option<(DateTime, nat)>)
    requires i <= |s|
    ensures r.Some? ==> i < r.value.1 <= |s|
  {
    var run := DigitRunEnd(s, i) - i;
    var n := if last && run > 6 then 6 else run;
    if 1 <= n <= 6 then
      DigitsPrefix(s, i, DigitRunEnd(s, i), n);
      Some((Store(acc, Fraction, Value(s[i..i + n]) * Pow10(6 - n)), i + n))
    else None
  }

  function ReadField(d: Directive, s: string, i: nat, acc: DateTime): (r: Option<(DateTime, nat)>)
    requires i <= |s|
    ensures r.Some? ==> i < r.value.1 <= |s|
  {
    var n := FieldWidth(d, s, i);
    if n == 0 then None
    else
      assert n == 2 || OneCharAlternative(d, s[i]);
      Some((Store(acc, d, TextValue(s[i..i + n])), i + n))
  }

  /**
   * The regular expression of the format anchored at `i`: the readings stored into `acc` and
   * where the match ends.
   */
  function Match(ds: seq<Directive>, s: string, i: nat, acc: DateTime): (r: Option<(DateTime, nat)>)
    requires i <= |s|
    ensures r.Some? ==> i <= r.value.1 <= |s|
    decreases |ds|
  {
    if |ds| == 0 then Some((acc, i))
    else
      match Step(ds[0], |ds| == 1, s, i, acc)
      case None => None
      case Some((acc', j)) => Match(ds[1..], s, j, acc')
  }

  /** `strptime`'s defaults for directives a format leaves out: 1900-01-01 00:00:00. */
  const Defaults := DateTime(1900, 1, 1, 0, 0, 0, 0)

  /**
   * `datetime.strptime(s, format)`: `None` where it raises `ValueError`, because the text
   * does not match, leaves unconverted characters, or names a date or time that does not exist.
   * `Match` follows Python's regular expression exactly for separated formats, which all three are.
   */
  function Parse(ds: seq<Directive>, s: string): (r: Option<DateTime>)
    ensures r.Some? ==> Valid(r.value)
  {
    match Match(ds, s, 0, Defaults)
    case None => None
    case Some((acc, end)) =>
      if end != |s| then None
      else MakeDateTime(acc.year, acc.month, acc.day, acc.hour, acc.minute, acc.second, acc.micro)
  }
}

module TimeFormatProofs {
  import opened Wrappers
  import opened Text
  import opened Scan
  import opened Calendar
  import opened TimeFormat

  /** The value of `t` that a directive names. */
  function FieldOf(d: Directive, t: DateTime): int {
    match d
    case Year => t.year
    case Month => t.month
    case Day => t.day
    case Hour => t.hour
    case Minute => t.minute
    case Second => t.second
    case Fraction => t.micro
    case _ => 0
  }

  /** `acc` with every field the format names taken from `t`. */
  function Fill(ds: seq<Directive>, t: DateTime, acc: DateTime): DateTime
    decreases |ds|
  {
    if |ds| == 0 then acc else Fill(ds[1..], t, Store(acc, ds[0], FieldOf(ds[0], t)))
  }

  /** Characters `strftime` writes for a directive, whatever the time. */
  function Width(d: Directive): nat {
    match d
    case Year => 4
    case Fraction => 6
    case Lit(_) => 1
    case Spaces => 1
    case _ => 2
  }

  function Span(ds: seq<Directive>): nat
    decreases |ds|
  {
    if |ds| == 0 then 0 else Width(ds[0]) + Span(ds[1..])
  }

  /** `s` holds the rendering of `t` under `ds` from `i` on, piece by piece. */
  predicate RenderedAt(ds: seq<Directive>, t: DateTime, s: string, i: nat)
    requires Valid(t)
    decreases |ds|
  {
    || |ds| == 0
    || (&& i + Width(ds[0]) <= |s|
        && s[i..i + Width(ds[0])] == Piece(ds[0], t)
        && RenderedAt(ds[1..], t, s, i + Width(ds[0])))
  }

  /** What follows a rendered format does not lengthen its final space run or fraction. */
  predicate FollowOk(ds: seq<Directive>, s: string, j: nat)
    requires j <= |s|
  {
    || |ds| == 0
    || j == |s|
    || ((ds[|ds| - 1].Spaces? ==> !IsSpace(s[j])) && (ds[|ds| - 1].Fraction? ==> !IsDigit(s[j])))
  }

  lemma FollowOkTail(ds: seq<Directive>, s: string, j: nat)
    requires |ds| > 0 && j <= |s| && FollowOk(ds, s, j)
    ensures FollowOk(ds[1..], s, j)
  {
    var tl := ds[1..];
    if |tl| > 0 {
      assert tl[|tl| - 1] == ds[|ds| - 1];
    }
  }

  /** Every piece but a literal's starts with a digit or a space, and has its width. */
  lemma PieceStart(d: Directive, t: DateTime)
    requires Valid(t)
    ensures |Piece(d, t)| == Width(d) > 0
    ensures !d.Lit? && !d.Spaces? ==> IsDigit(Piece(d, t)[0])
    ensures d.Lit? ==> Piece(d, t)[0] == d.c
    ensures d.Spaces? ==> Piece(d, t)[0] == ' '
  {
  }

  /** The character after the head's piece cannot lengthen a space run or a fraction. */
  lemma FollowOfHead(ds: seq<Directive>, t: DateTime, s: string, i: nat)
    requires Separated(ds) && Valid(t) && |ds| > 0
    requires RenderedAt(ds, t, s, i) && i + Span(ds) <= |s| && FollowOk(ds, s, i + Span(ds))
    ensures var j := i + Width(ds[0]);
      && j <= |s|
      && (ds[0].Spaces? ==> j == |s| || !IsSpace(s[j]))
      && (ds[0].Fraction? ==> j == |s| || !IsDigit(s[j]))
  {
    var j := i + Width(ds[0]);
    if |ds| > 1 {
      var next := ds[1];
      assert ds[1..][0] == next;
      assert s[j..j + Width(next)] == Piece(next, t);
      PieceStart(next, t);
      assert s[j] == Piece(next, t)[0];
      assert Follows(ds[0], next);
    }
  }

  /** A single rendered space followed by something else. */
  lemma SpacesStep(s: string, i: nat, last: bool, acc: DateTime)
    requires i < |s| && s[i] == ' ' && (i + 1 == |s| || !IsSpace(s[i + 1]))
    ensures Step(Spaces, last, s, i, acc) == Some((acc, i + 1))
  {
    assert AllSpace(s[i..i + 1]);
    SpaceRunUnique(s, i, i + 1);
  }

  lemma FractionStep(t: DateTime, s: string, i: nat, last: bool, acc: DateTime)
    requires Valid(t)
    requires i + 6 <= |s| && s[i..i + 6] == Pad(t.micro, 6)
    requires i + 6 == |s| || !IsDigit(s[i + 6])
    ensures Step(Fraction, last, s, i, acc) == Some((Store(acc, Fraction, t.micro), i + 6))
  {
    DigitRunUnique(s, i, i + 6);
    assert Pow10(0) == 1;
  }

  lemma ShortFieldStep(d: Directive, t: DateTime, s: string, i: nat, last: bool, acc: DateTime)
    requires Valid(t) && d.IsShortField()
    requires i + 2 <= |s| && s[i..i + 2] == Pad(FieldOf(d, t), 2)
    ensures Step(d, last, s, i, acc) == Some((Store(acc, d, FieldOf(d, t)), i + 2))
  {
    var v := FieldOf(d, t);
    PadTwo(v);
    assert s[i] == s[i..i + 2][0] && s[i + 1] == s[i..i + 2][1];
    assert TwoCharAlternative(d, s[i], s[i + 1]);
    assert FieldWidth(d, s, i) == 2;
  }

  /** One directive of a rendered format reads back its field. */
  lemma HeadStep(ds: seq<Directive>, t: DateTime, s: string, i: nat, acc: DateTime)
    requires Separated(ds) && Valid(t) && |ds| > 0
    requires RenderedAt(ds, t, s, i) && i + Span(ds) <= |s| && FollowOk(ds, s, i + Span(ds))
    ensures Step(ds[0], |ds| == 1, s, i, acc) ==
      Some((Store(acc, ds[0], FieldOf(ds[0], t)), i + Width(ds[0])))
  {
    FollowOfHead(ds, t, s, i);
    var j := i + Width(ds[0]);
    var last := |ds| == 1;
    match ds[0]
    case Lit(c) =>
      assert s[i] == s[i..j][0];
    case Spaces =>
      assert s[i] == s[i..j][0];
      SpacesStep(s, i, last, acc);
    case Year =>
      assert DigitsAt(s, i, 4);
    case Fraction =>
      FractionStep(t, s, i, last, acc);
    case _ =>
      ShortFieldStep(ds[0], t, s, i, last, acc);
  }

  /** Every directive of `ds`, read at its place from `i` on, stores its field of `t`. */
  ghost predicate ReadsBack(ds: seq<Directive>, t: DateTime, s: string, i: nat)
    decreases |ds|
  {
    || |ds| == 0
    || (&& i + Width(ds[0]) <= |s|
        && (forall acc :: Step(ds[0], |ds| == 1, s, i, acc) ==
              Some((Store(acc, ds[0], FieldOf(ds[0], t)), i + Width(ds[0]))))
        && ReadsBack(ds[1..], t, s, i + Width(ds[0])))
  }

  /** A rendered separated format reads back directive by directive. */
  lemma {:induction false} RenderedReadsBack(ds: seq<Directive>, t: DateTime, s: string, i: nat)
    requires Separated(ds) && Valid(t)
    requires RenderedAt(ds, t, s, i) && i + Span(ds) <= |s| && FollowOk(ds, s, i + Span(ds))
    ensures ReadsBack(ds, t, s, i)
    decreases |ds|
  {
    if |ds| > 0 {
      forall acc: DateTime
        ensures Step(ds[0], |ds| == 1, s, i, acc) ==
          Some((Store(acc, ds[0], FieldOf(ds[0], t)), i + Width(ds[0])))
      {
        HeadStep(ds, t, s, i, acc);
      }
      FollowOkTail(ds, s, i + Span(ds));
      RenderedReadsBack(ds[1..], t, s, i + Width(ds[0]));
    }
  }

  /** Reading back directive by directive stores exactly the fields named and stops at the end. */
  lemma {:induction false} MatchReadsBack(ds: seq<Directive>, t: DateTime, s: string, i: nat, acc: DateTime)
    requires i <= |s| && ReadsBack(ds, t, s, i)
    ensures Match(ds, s, i, acc) == Some((Fill(ds, t, acc), i + Span(ds)))
    decreases |ds|
  {
    if |ds| > 0 {
      MatchReadsBack(ds[1..], t, s, i + Width(ds[0]), Store(acc, ds[0], FieldOf(ds[0], t)));
    }
  }

  /** Reading a rendered format back stores exactly the fields it names and stops at its end. */
  lemma MatchRender(ds: seq<Directive>, t: DateTime, s: string, i: nat, acc: DateTime)
    requires Separated(ds) && Valid(t)
    requires RenderedAt(ds, t, s, i) && i + Span(ds) <= |s| && FollowOk(ds, s, i + Span(ds))
    ensures Match(ds, s, i, acc) == Some((Fill(ds, t, acc), i + Span(ds)))
  {
    RenderedReadsBack(ds, t, s, i);
    MatchReadsBack(ds, t, s, i, acc);
  }

  /** `strftime` writes the pieces one after another. */
  lemma {:induction false} RenderedWithin(ds: seq<Directive>, t: DateTime, pre: string, post: string)
    requires Valid(t)
    ensures |Render(ds, t)| == Span(ds)
    ensures RenderedAt(ds, t, pre + Render(ds, t) + post, |pre|)
    decreases |ds|
  {
    if |ds| > 0 {
      PieceStart(ds[0], t);
      RenderedWithin(ds[1..], t, pre + Piece(ds[0], t), post);
      RegroupHead(ds, t, pre, post);
    }
  }

  /** Moving the head's piece from the rendering into the text before it. */
  lemma RegroupHead(ds: seq<Directive>, t: DateTime, pre: string, post: string)
    requires Valid(t) && |ds| > 0
    ensures var p := Piece(ds[0], t);
      && pre + Render(ds, t) + post == (pre + p) + Render(ds[1..], t) + post
      && (pre + Render(ds, t) + post)[|pre|..|pre| + |p|] == p
  {
    Regroup(pre, Piece(ds[0], t), Render(ds[1..], t), post);
  }

  lemma Regroup(pre: string, p: string, rest: string, post: string)
    ensures pre + (p + rest) + post == (pre + p) + rest + post
    ensures (pre + (p + rest) + post)[|pre|..|pre| + |p|] == p
  {
    var s := pre + (p + rest) + post;
    assert s == (pre + p) + rest + post;
    assert s[|pre|..|pre| + |p|] == p;
  }

  /** A field of `acc` after filling: `t`'s value when the format names the field. */
  lemma {:induction false} FillField(ds: seq<Directive>, t: DateTime, acc: DateTime, d: Directive)
    requires !d.Lit? && !d.Spaces?
    ensures FieldOf(d, Fill(ds, t, acc)) == if d in ds then FieldOf(d, t) else FieldOf(d, acc)
    decreases |ds|
  {
    if |ds| > 0 {
      FillField(ds[1..], t, Store(acc, ds[0], FieldOf(ds[0], t)), d);
      assert d in ds <==> d == ds[0] || d in ds[1..] by {
        assert ds == [ds[0]] + ds[1..];
      }
    }
  }

  /** A format that names all of year to second and perhaps the fraction fills those fields. */
  lemma FillAll(ds: seq<Directive>, t: DateTime, acc: DateTime)
    requires NamesDateAndTime(ds)
    ensures Fill(ds, t, acc) == t.(micro := if Fraction in ds then t.micro else acc.micro)
  {
    FillField(ds, t, acc, Year);
    FillField(ds, t, acc, Month);
    FillField(ds, t, acc, Day);
    FillField(ds, t, acc, Hour);
    FillField(ds, t, acc, Minute);
    FillField(ds, t, acc, Second);
    FillField(ds, t, acc, Fraction);
  }

  /** The format names every field from the year down to the second. */
  predicate NamesDateAndTime(ds: seq<Directive>) {
    Year in ds && Month in ds && Day in ds && Hour in ds && Minute in ds && Second in ds
  }

  /** `strptime` of a separated format reads `strftime` of the same format back. */
  lemma ParseRender(ds: seq<Directive>, t: DateTime)
    requires Separated(ds) && Valid(t) && NamesDateAndTime(ds)
    ensures Parse(ds, Render(ds, t)) == Some(t.(micro := if Fraction in ds then t.micro else 0))
  {
    var s := Render(ds, t);
    RenderReadsBack(ds, t);
    MatchReadsBack(ds, t, s, 0, Defaults);
    FillAll(ds, t, Defaults);
    ParseMatched(ds, s, Fill(ds, t, Defaults));
  }

  lemma RenderReadsBack(ds: seq<Directive>, t: DateTime)
    requires Separated(ds) && Valid(t)
    ensures |Render(ds, t)| == Span(ds) && ReadsBack(ds, t, Render(ds, t), 0)
  {
    var s := Render(ds, t);
    RenderedWithin(ds, t, "", "");
    assert "" + s + "" == s;
    RenderedReadsBack(ds, t, s, 0);
  }

  /** A match of the whole text with a valid reading is what `strptime` returns. */
  lemma ParseMatched(ds: seq<Directive>, s: string, acc: DateTime)
    requires var r := Match(ds, s, 0, Defaults); r.Some? && r.value.0 == acc && r.value.1 == |s|
    requires Valid(acc)
    ensures Parse(ds, s) == Some(acc)
  {
  }

  lemma ExifFields()
    ensures NamesDateAndTime(ExifFormat) && Fraction !in ExifFormat
  {
  }

  lemma FfmpegFields()
    ensures NamesDateAndTime(FfmpegFormat) && Fraction in FfmpegFormat
  {
    assert FfmpegFormat[12] == Fraction;
  }

  lemma UtcFields()
    ensures NamesDateAndTime(UtcFormat) && Fraction !in UtcFormat
  {
  }

  /** Writing the EXIF format and reading it back gives the time to the second. */
  lemma ExifRoundTrip(t: DateTime)
    requires Valid(t)
    ensures Parse(ExifFormat, Render(ExifFormat, t)) == Some(t.(micro := 0))
  {
    ExifFormatSeparated();
    ExifFields();
    ParseRender(ExifFormat, t);
  }

  /** ffmpeg's format reads back to the microsecond. */
  lemma FfmpegRoundTrip(t: DateTime)
    requires Valid(t)
    ensures Parse(FfmpegFormat, Render(FfmpegFormat, t)) == Some(t)
  {
    IsoFormatsSeparated();
    FfmpegFields();
    ParseRender(FfmpegFormat, t);
  }

  /** The format written to videos reads back, under its own format, to the second. */
  lemma UtcRoundTrip(t: DateTime)
    requires Valid(t)
    ensures Parse(UtcFormat, Render(UtcFormat, t)) == Some(t.(micro := 0))
  {
    IsoFormatsSeparated();
    UtcFields();
    ParseRender(UtcFormat, t);
  }

  lemma {:induction false} RenderAppend(a: seq<Directive>, b: seq<Directive>, t: DateTime)
    requires Valid(t)
    ensures Render(a + b, t) == Render(a, t) + Render(b, t)
    decreases |a|
  {
    if |a| == 0 {
      assert a + b == b;
    } else {
      assert (a + b)[1..] == a[1..] + b;
      assert (a + b)[0] == a[0];
      RenderAppend(a[1..], b, t);
    }
  }

  /** Matching a concatenated format is matching its parts one after the other. */
  lemma {:induction false} MatchAppend(a: seq<Directive>, b: seq<Directive>, s: string, i: nat, acc: DateTime)
    requires i <= |s| && (|a| == 0 || !a[|a| - 1].Fraction?)
    ensures Match(a + b, s, i, acc) ==
      match Match(a, s, i, acc)
      case None => None
      case Some((acc', end)) => Match(b, s, end, acc')
    decreases |a|
  {
    if |a| == 0 {
      assert a + b == b;
    } else {
      assert (a + b)[1..] == a[1..] + b;
      assert (a + b)[0] == a[0];
      assert |a| > 1 ==> a[1..][|a| - 2] == a[|a| - 1];
      // The head reads the same, as only a fraction looks at whether it is last.
      assert Step(a[0], |a + b| == 1, s, i, acc) == Step(a[0], |a| == 1, s, i, acc);
      match Step(a[0], |a| == 1, s, i, acc)
      case None =>
      case Some((acc', j)) =>
        MatchAppend(a[1..], b, s, j, acc');
    }
  }

  /** The rendering of a format with one more literal is the format's rendering and the literal. */
  lemma RenderThenLit(a: seq<Directive>, c: char, t: DateTime)
    requires Valid(t)
    ensures Render(a + [Lit(c)], t) == Render(a, t) + [c]
  {
    RenderAppend(a, [Lit(c)], t);
    assert Render([Lit(c)], t) == [c];
  }

  /** A rendering followed by one more character is still read piece by piece. */
  lemma RenderedThenChar(a: seq<Directive>, c: char, t: DateTime)
    requires Valid(t)
    ensures var s := Render(a, t) + [c];
      && |s| == Span(a) + 1 && s[Span(a)] == c && RenderedAt(a, t, s, 0)
  {
    RenderedWithin(a, t, "", [c]);
    assert "" + Render(a, t) + [c] == Render(a, t) + [c];
  }

  /**
   * A text rendered from a format plus one literal, read with the same format plus a
   * different literal, fails at that literal.
   */
  lemma RejectAfter(a: seq<Directive>, b: seq<Directive>, c: char, t: DateTime)
    requires Valid(t) && Separated(a) && |a| > 0 && !a[|a| - 1].Fraction? && !a[|a| - 1].Spaces?
    requires |b| > 0 && b[0].Lit? && !LitMatches(b[0].c, c)
    ensures Parse(a + b, Render(a + [Lit(c)], t)) == None
  {
    RenderThenLit(a, c, t);
    var s := Render(a, t) + [c];
    RenderedThenChar(a, c, t);
    MatchRender(a, t, s, 0, Defaults);
    MatchAppend(a, b, s, 0, Defaults);
  }

  /** A video time written by the script, read with ffmpeg's format, is refused. */
  lemma UtcRejectedAsFfmpeg(t: DateTime)
    requires Valid(t)
    ensures Parse(FfmpegFormat, Render(UtcFormat, t)) == None
  {
    IsoCoreSeparated();
    IsoFormatsShareCore();
    assert IsoCore[|IsoCore| - 1] == Second;
    assert !LitMatches('.', 'Z');
    RejectAfter(IsoCore, [Lit('.'), Fraction, Lit('Z')], 'Z', t);
  }
}
