/**
 * `extract_date_from_filename` of the video-only script: one search for
 * `(?:\[.*?\]\s+)?(\d{4})-(\d{2})-(\d{2})\s+(\d{2})\.(\d{2})\.(\d{2})`.
 * The optional bracketed tag is tried first at every position, and `.*?` grows one
 * character at a time up to a `]` after which the rest matches; `.` does not cross a newline.
 */
module VideoName {
  import opened Wrappers
  import opened Text
  import opened Scan
  import opened Calendar
  import opened DatePattern

  /** `\s+` and the 24-hour pattern right after a `]` that ends at `j`. */
  function AfterTag(s: string, j: nat): (r: Option<(Fields, nat)>)
    requires j <= |s|
  {
    match SpacesAt(s, j)
    case None => None
    case Some(m) => Core24At(s, m)
  }

  /** `.*?\]\s+` and the 24-hour pattern, with the lazy `.*?` having taken `s[.. k]` so far. */
  function TagFrom(s: string, k: nat): (r: Option<(Fields, nat)>)
    decreases |s| - k
  {
    if k >= |s| then None
    else
      var closed := if s[k] == ']' then AfterTag(s, k + 1) else None;
      if closed.Some? then closed
      else if s[k] == '\n' then None
      else TagFrom(s, k + 1)
  }

  /** The whole pattern anchored at `i`: the tagged form first, then the bare date. */
  function VideoAt(s: string, i: nat): (r: Option<(Fields, nat)>) {
    var tagged := if i < |s| && s[i] == '[' then TagFrom(s, i + 1) else None;
    if tagged.Some? then tagged else Core24At(s, i)
  }

  /** `extract_date_from_filename(name)` of the video script. */
  function Extract(name: string): (r: Extraction)
    ensures r.NoDate? <==> forall i :: 0 <= i <= |name| ==> VideoAt(name, i).None?
    ensures r.Found? ==> Valid(r.when) && r.when.micro == 0
  {
    match Leftmost(name, 0, VideoAt)
    case None => NoDate
    case Some((_, (f, _))) => Construct(f)
  }

  /** A successful tag is followed by a bare date somewhere later. */
  lemma {:induction false} TagFromHasDate(s: string, k: nat) returns (m: nat)
    requires TagFrom(s, k).Some?
    ensures k < m <= |s| && Core24At(s, m) == TagFrom(s, k)
    decreases |s| - k
  {
    var closed := if s[k] == ']' then AfterTag(s, k + 1) else None;
    if closed.Some? {
      m := SpaceRunEnd(s, k + 1);
    } else {
      m := TagFromHasDate(s, k + 1);
    }
  }

  /** Where no tag can open, the pattern is the bare 24-hour pattern. */
  lemma UntaggedAt(s: string, i: nat)
    requires i >= |s| || s[i] != '['
    ensures VideoAt(s, i) == Core24At(s, i)
  {
  }

  /**
   * The video script finds no date exactly when the bare 24-hour pattern occurs nowhere in
   * the name: the tag can change which date is read, never whether one is.
   */
  lemma NoDateIffNoPattern(name: string)
    ensures Extract(name).NoDate? <==> forall i :: 0 <= i <= |name| ==> Core24At(name, i).None?
  {
    if !Extract(name).NoDate? {
      var i :| 0 <= i <= |name| && VideoAt(name, i).Some?;
      if Core24At(name, i).None? {
        var m := TagFromHasDate(name, i + 1);
        assert Core24At(name, m).Some?;
      }
    } else {
      forall i | 0 <= i <= |name|
        ensures Core24At(name, i).None?
      {
        assert VideoAt(name, i).None?;
        if i < |name| && name[i] == '[' {
          Core24NeedsDigit(name, i);
        }
      }
    }
  }

  /** Characters that are neither `]` nor a newline let the lazy `.*?` grow past them. */
  lemma {:induction false} TagSkips(s: string, k: nat, k': nat)
    requires k <= k' <= |s|
    requires forall j :: k <= j < k' ==> s[j] != ']' && s[j] != '\n'
    ensures TagFrom(s, k) == TagFrom(s, k')
    decreases k' - k
  {
    if k < k' {
      TagSkips(s, k + 1, k');
    }
  }

  /** The leftmost match gives the name's date: its six groups as written, with no AM or PM adjustment. */
  lemma VideoReading(name: string, i: nat, f: Fields, e: nat)
    requires i <= |name| && VideoAt(name, i) == Some((f, e))
    requires forall k :: 0 <= k < i ==> VideoAt(name, k).None?
    ensures Extract(name) == Construct(f)
  {
    LeftmostFirst(name, 0, VideoAt, i);
  }
}
