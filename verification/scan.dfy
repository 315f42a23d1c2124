/**
 * Building blocks shared by the hand-written regular-expression scanners: greedy runs of one
 * character class, fixed-width digit fields, and `re.search`'s leftmost-start rule.
 */
module Scan {
  import opened Wrappers
  import opened Text

  /**
   * End of the run of whitespace that starts at `i`. A greedy `\s+` or `\s*` that is followed
   * by something that is not whitespace can only stop here.
   */
  function SpaceRunEnd(s: string, i: nat): (j: nat)
    requires i <= |s|
    ensures i <= j <= |s| && AllSpace(s[i..j]) && (j == |s| || !IsSpace(s[j]))
    decreases |s| - i
  {
    if i == |s| || !IsSpace(s[i]) then i
    else
      var j := SpaceRunEnd(s, i + 1);
      assert s[i..j] == [s[i]] + s[i + 1..j];
      j
  }

  /** A whitespace run is exactly what it is: no other length both is whitespace and ends it. */
  lemma SpaceRunUnique(s: string, i: nat, j: nat)
    requires i <= j <= |s| && AllSpace(s[i..j]) && (j == |s| || !IsSpace(s[j]))
    ensures SpaceRunEnd(s, i) == j
  {
  }

  /** End of the run of digits that starts at `i`, where a greedy `\d+` stops. */
  function DigitRunEnd(s: string, i: nat): (j: nat)
    requires i <= |s|
    ensures i <= j <= |s| && AllDigits(s[i..j]) && (j == |s| || !IsDigit(s[j]))
    decreases |s| - i
  {
    if i == |s| || !IsDigit(s[i]) then i
    else
      var j := DigitRunEnd(s, i + 1);
      assert s[i..j] == [s[i]] + s[i + 1..j];
      j
  }

  /** A digit run is exactly what it is. */
  lemma DigitRunUnique(s: string, i: nat, j: nat)
    requires i <= j <= |s| && AllDigits(s[i..j]) && (j == |s| || !IsDigit(s[j]))
    ensures DigitRunEnd(s, i) == j
  {
  }

  /** The first `n` characters of a digit run are digits. */
  lemma DigitsPrefix(s: string, i: nat, j: nat, n: nat)
    requires i + n <= j <= |s| && AllDigits(s[i..j])
    ensures AllDigits(s[i..i + n])
  {
    var run, init := s[i..j], s[i..i + n];
    forall k | 0 <= k < |init|
      ensures IsDigit(init[k])
    {
      assert init[k] == s[i + k] == run[k];
    }
  }

  /** `\d{n}` at `i`. */
  predicate DigitsAt(s: string, i: nat, n: nat) {
    i + n <= |s| && AllDigits(s[i..i + n])
  }

  /** The value of the `\d{n}` group at `i`, as `int()` reads it. */
  function FieldValue(s: string, i: nat, n: nat): nat
    requires DigitsAt(s, i, n)
  {
    Value(s[i..i + n])
  }

  /** A digit field grows by one digit: its value shifts left and takes the new digit. */
  lemma DigitsAtStep(s: string, i: nat, n: nat)
    requires DigitsAt(s, i, n) && i + n < |s| && IsDigit(s[i + n])
    ensures DigitsAt(s, i, n + 1)
    ensures FieldValue(s, i, n + 1) == FieldValue(s, i, n) * 10 + DigitValue(s[i + n])
  {
    var head, t := s[i..i + n], s[i..i + n + 1];
    forall k | 0 <= k < |t|
      ensures IsDigit(t[k])
    {
      if k < n {
        assert t[k] == head[k];
      }
    }
    assert t[..n] == head;
  }

  /** `\d{2}` at `i` read from its two characters. */
  lemma TwoDigits(s: string, i: nat)
    requires i + 2 <= |s| && IsDigit(s[i]) && IsDigit(s[i + 1])
    ensures DigitsAt(s, i, 2) && FieldValue(s, i, 2) == DigitValue(s[i]) * 10 + DigitValue(s[i + 1])
  {
    assert DigitsAt(s, i, 0) && FieldValue(s, i, 0) == 0;
    DigitsAtStep(s, i, 0);
    DigitsAtStep(s, i, 1);
  }

  /** `\d{4}` at `i` read from its four characters. */
  lemma FourDigits(s: string, i: nat)
    requires i + 4 <= |s| && IsDigit(s[i]) && IsDigit(s[i + 1]) && IsDigit(s[i + 2]) && IsDigit(s[i + 3])
    ensures DigitsAt(s, i, 4)
    ensures FieldValue(s, i, 4)
      == DigitValue(s[i]) * 1000 + DigitValue(s[i + 1]) * 100 + DigitValue(s[i + 2]) * 10 + DigitValue(s[i + 3])
  {
    TwoDigits(s, i);
    DigitsAtStep(s, i, 2);
    DigitsAtStep(s, i, 3);
  }

  /** The literal character `c` at `i`. */
  predicate CharAt(s: string, i: nat, c: char) {
    i < |s| && s[i] == c
  }

  /**
   * `re.search`: the match that starts leftmost, trying the start positions `from`, `from + 1`,
   * ..., `|s|` in turn; `at(s, i)` is the pattern anchored at `i`.
   */
  function Leftmost<M>(s: string, from: nat, at: (string, nat) -> Option<M>): (r: Option<(nat, M)>)
    requires from <= |s| + 1
    ensures r.None? <==> forall i :: from <= i <= |s| ==> at(s, i).None?
    ensures r.Some? ==>
      && from <= r.value.0 <= |s|
      && at(s, r.value.0) == Some(r.value.1)
      && forall i :: from <= i < r.value.0 ==> at(s, i).None?
    decreases |s| + 1 - from
  {
    if from > |s| then None
    else
      match at(s, from)
      case Some(m) => Some((from, m))
      case None => Leftmost(s, from + 1, at)
  }

  /** A match at `i` with none before it is the one `re.search` reports. */
  lemma LeftmostFirst<M>(s: string, from: nat, at: (string, nat) -> Option<M>, i: nat)
    requires from <= i <= |s| && at(s, i).Some?
    requires forall k :: from <= k < i ==> at(s, k).None?
    ensures Leftmost(s, from, at) == Some((i, at(s, i).value))
  {
    var r := Leftmost(s, from, at);
    assert r.Some? && from <= r.value.0 <= |s|;
  }
}
