/**
 * The per-file loops of the three scripts: what each file comes to, how the counters move,
 * and what a run reports and exits with. The tools' answers for a file are parameters.
 */
module Batch {
  /** What one file comes to in a loop. */
  datatype FileOutcome =
    | Succeeded // the success counter goes up
    | Skipped   // no date in the name: the skipped counter goes up
    | Errored   // an exception caught by the loop's `try`: the error counter goes up
    | Raised    // an exception outside the `try`: the run stops with a traceback

  /** The counters a loop prints at the end. */
  datatype Tally = Tally(success: nat, skipped: nat, error: nat) {
    function Total(): nat {
      success + skipped + error
    }
  }

  /**
   * How a loop over the files ends: after the last file with its counters, or at the file
   * that raised, whose traceback ends the run before any counter is printed.
   */
  datatype Report = Completed(counts: Tally) | Aborted(at: nat)

  /** A whole run: stopped before the loop for want of media files, or the loop's outcomes and report. */
  datatype Run = NoMedia(status: int) | Ran(outcomes: seq<FileOutcome>, report: Report)

  /** The counters after one more file that does not raise. */
  function Record(t: Tally, o: FileOutcome): (u: Tally)
    ensures o != Raised ==> u.Total() == t.Total() + 1
  {
    match o
    case Succeeded => t.(success := t.success + 1)
    case Skipped => t.(skipped := t.skipped + 1)
    case Errored => t.(error := t.error + 1)
    case Raised => t
  }

  /** The loop from file `i` on, with the counters it adds up, stopping at the first file that raises. */
  function Loop(outs: seq<FileOutcome>, i: nat): (r: Report)
    requires i <= |outs|
    ensures r.Completed? ==> r.counts.Total() == |outs| - i
    ensures r.Aborted? ==> i <= r.at < |outs| && outs[r.at] == Raised
    decreases |outs| - i
  {
    if i == |outs| then Completed(Tally(0, 0, 0))
    else if outs[i] == Raised then Aborted(i)
    else
      var rest := Loop(outs, i + 1);
      if rest.Aborted? then rest else Completed(Record(rest.counts, outs[i]))
  }

  /** The whole loop, with the counters starting at zero. */
  function Process(outs: seq<FileOutcome>): (r: Report)
    ensures r.Completed? ==> r.counts.Total() == |outs|
    ensures r.Aborted? ==> r.at < |outs| && outs[r.at] == Raised
  {
    Loop(outs, 0)
  }

  /** The process exit status: the script's own on an empty list, 1 after a traceback, else 0. */
  function ExitStatus(run: Run): int {
    match run
    case NoMedia(status) => status
    case Ran(_, Aborted(_)) => 1
    case Ran(_, Completed(_)) => 0
  }

  /** How many of the outcomes of files `i` to `j - 1` are `o`. */
  function CountRange(outs: seq<FileOutcome>, i: nat, j: nat, o: FileOutcome): nat
    requires i <= j <= |outs|
    decreases j - i
  {
    if i == j then 0 else (if outs[i] == o then 1 else 0) + CountRange(outs, i + 1, j, o)
  }

  /** How many of the outcomes are `o`. */
  function Count(outs: seq<FileOutcome>, o: FileOutcome): nat {
    CountRange(outs, 0, |outs|, o)
  }
}

module BatchProofs {
  import opened Batch

  /** Each outcome is one of the four kinds, so their numbers add up to the number of files. */
  lemma {:induction false} CountsPartition(outs: seq<FileOutcome>, i: nat, j: nat)
    requires i <= j <= |outs|
    ensures CountRange(outs, i, j, Succeeded) + CountRange(outs, i, j, Skipped)
      + CountRange(outs, i, j, Errored) + CountRange(outs, i, j, Raised) == j - i
    decreases j - i
  {
    if i < j {
      CountsPartition(outs, i + 1, j);
    }
  }

  /** An outcome that occurs nowhere in a range is counted zero times there, and only then. */
  lemma {:induction false} CountZero(outs: seq<FileOutcome>, i: nat, j: nat, o: FileOutcome)
    requires i <= j <= |outs|
    ensures CountRange(outs, i, j, o) == 0 <==> forall k :: i <= k < j ==> outs[k] != o
    decreases j - i
  {
    if i < j {
      CountZero(outs, i + 1, j, o);
    }
  }

  /** The loop from file `i` completes exactly when no file from `i` on raises. */
  lemma {:induction false} LoopCompletes(outs: seq<FileOutcome>, i: nat)
    requires i <= |outs|
    ensures Loop(outs, i).Completed? <==> forall k :: i <= k < |outs| ==> outs[k] != Raised
    decreases |outs| - i
  {
    if i < |outs| && outs[i] == Raised {
      assert Loop(outs, i) == Aborted(i);
    } else if i < |outs| {
      LoopCompletes(outs, i + 1);
      var rest := Loop(outs, i + 1);
      if rest.Aborted? {
        assert Loop(outs, i) == rest;
        assert outs[rest.at] == Raised;
      } else {
        assert Loop(outs, i) == Completed(Record(rest.counts, outs[i]));
        assert forall k :: i + 1 <= k < |outs| ==> outs[k] != Raised;
      }
    }
  }

  /** A loop from file `i` that stops, stops at the first file from `i` on that raises. */
  lemma {:induction false} LoopStopsFirst(outs: seq<FileOutcome>, i: nat)
    requires i <= |outs| && Loop(outs, i).Aborted?
    ensures forall k :: i <= k < Loop(outs, i).at ==> outs[k] != Raised
    decreases |outs| - i
  {
    if outs[i] != Raised {
      assert Loop(outs, i) == Loop(outs, i + 1);
      LoopStopsFirst(outs, i + 1);
    }
  }

  /** A completed loop's counters are the numbers of successes, skips and errors from file `i` on. */
  lemma {:induction false} LoopCounts(outs: seq<FileOutcome>, i: nat)
    requires i <= |outs|
    ensures Loop(outs, i).Completed? ==> Loop(outs, i).counts == Tally(
      CountRange(outs, i, |outs|, Succeeded), CountRange(outs, i, |outs|, Skipped), CountRange(outs, i, |outs|, Errored))
    decreases |outs| - i
  {
    if i < |outs| && outs[i] != Raised {
      LoopCounts(outs, i + 1);
    }
  }

  /** The loop completes exactly when no file raises, and otherwise stops at the first that does. */
  lemma ProcessStops(outs: seq<FileOutcome>)
    ensures Process(outs).Completed? <==> forall k :: 0 <= k < |outs| ==> outs[k] != Raised
    ensures Process(outs).Aborted? ==> forall k :: 0 <= k < Process(outs).at ==> outs[k] != Raised
  {
    LoopCompletes(outs, 0);
    if Process(outs).Aborted? {
      LoopStopsFirst(outs, 0);
    }
  }

  /**
   * When every file is a success or an error, the loop completes, skips nothing, and its two
   * counters add up to the number of files.
   */
  lemma CaughtEverywhere(outs: seq<FileOutcome>)
    requires forall k :: 0 <= k < |outs| ==> outs[k] == Succeeded || outs[k] == Errored
    ensures Process(outs).Completed?
    ensures Process(outs).counts.skipped == 0
    ensures Process(outs).counts.success + Process(outs).counts.error == |outs|
  {
    ProcessStops(outs);
    ProcessCounts(outs);
    CountZero(outs, 0, |outs|, Skipped);
  }

  /**
   * The counters of a completed loop are the numbers of successes, skips and errors among
   * the outcomes, and no file raised.
   */
  lemma ProcessCounts(outs: seq<FileOutcome>)
    requires Process(outs).Completed?
    ensures Process(outs).counts == Tally(Count(outs, Succeeded), Count(outs, Skipped), Count(outs, Errored))
    ensures Count(outs, Raised) == 0
  {
    LoopCounts(outs, 0);
    ProcessStops(outs);
    CountZero(outs, 0, |outs|, Raised);
  }
}

/**
 * The two filename scripts: a file whose name has no date is skipped, a name whose date
 * `datetime` rejects raises outside the `try`, and otherwise the conversion to UTC and the
 * tool decide between success and error.
 */
module FilenameBatch {
  import opened Calendar
  import opened Zone
  import opened DatePattern
  import opened Media
  import opened Batch
  import opened BatchProofs
  import CreationName
  import VideoName

  /** Exit status of both filename scripts when no file qualifies. */
  const EmptyStatus := 0

  /**
   * One file: `zone` gives the zone's offset at a local reading and `wrote` whether the copy
   * and the tool succeeded.
   */
  function FileOutcomeOf(x: Extraction, zone: DateTime -> Offset, wrote: bool): FileOutcome
    requires x.Found? ==> Valid(x.when)
  {
    match x
    case NoDate => Skipped
    case Invalid(_) => Raised
    case Found(t) => if ToUtc(t, zone(t)).Some? && wrote then Succeeded else Errored
  }

  /** The photo-and-video script's loop over its classified files. */
  function CreationRun(entries: seq<Entry>, zone: DateTime -> Offset, wrote: string -> bool): (run: Run)
    ensures var files := MediaFiles(entries, CreationKind);
      && (run.NoMedia? <==> |files| == 0)
      && (run.NoMedia? ==> ExitStatus(run) == EmptyStatus)
      && (run.Ran? ==>
        && |run.outcomes| == |files|
        && (forall k :: 0 <= k < |files| ==>
          (run.outcomes[k] == Skipped <==> CreationName.Extract(files[k].1).NoDate?))
        && (run.report.Completed? <==> forall k :: 0 <= k < |files| ==> !CreationName.Extract(files[k].1).Invalid?)
        && (run.report.Completed? ==> run.report.counts.Total() == |files|))
  {
    var files := MediaFiles(entries, CreationKind);
    if |files| == 0 then NoMedia(EmptyStatus)
    else
      var outs := seq(|files|, k requires 0 <= k < |files| =>
        FileOutcomeOf(CreationName.Extract(files[k].1), zone, wrote(files[k].1)));
      ProcessStops(outs);
      Ran(outs, Process(outs))
  }

  /** The video script's loop over its video files. */
  function VideoRun(entries: seq<Entry>, zone: DateTime -> Offset, wrote: string -> bool): (run: Run)
    ensures var files := VideoFiles(entries);
      && (run.NoMedia? <==> |files| == 0)
      && (run.NoMedia? ==> ExitStatus(run) == EmptyStatus)
      && (run.Ran? ==>
        && |run.outcomes| == |files|
        && (forall k :: 0 <= k < |files| ==>
          (run.outcomes[k] == Skipped <==> VideoName.Extract(files[k]).NoDate?))
        && (run.report.Completed? <==> forall k :: 0 <= k < |files| ==> !VideoName.Extract(files[k]).Invalid?)
        && (run.report.Completed? ==> run.report.counts.Total() == |files|))
  {
    var files := VideoFiles(entries);
    if |files| == 0 then NoMedia(EmptyStatus)
    else
      var outs := seq(|files|, k requires 0 <= k < |files| =>
        FileOutcomeOf(VideoName.Extract(files[k]), zone, wrote(files[k])));
      ProcessStops(outs);
      Ran(outs, Process(outs))
  }
}

module FilenameBatchProofs {
  import opened Calendar
  import opened Zone
  import opened DatePattern
  import opened Batch
  import opened BatchProofs
  import opened FilenameBatch

  /**
   * No date is a skip and never an error; a rejected date raises; a date succeeds exactly
   * when its UTC reading stays within years 1-9999 and the tool succeeds, and errs otherwise.
   */
  lemma FileOutcomeCases(x: Extraction, zone: DateTime -> Offset, wrote: bool)
    requires x.Found? ==> Valid(x.when)
    ensures FileOutcomeOf(x, zone, wrote) == Skipped <==> x.NoDate?
    ensures FileOutcomeOf(x, zone, wrote) == Raised <==> x.Invalid?
    ensures FileOutcomeOf(x, zone, wrote) == Succeeded <==>
      x.Found? && 0 <= Timestamp(x.when) - zone(x.when) < MaxOrdinal * 86400 && wrote
    ensures FileOutcomeOf(x, zone, wrote) == Errored <==>
      x.Found? && !(0 <= Timestamp(x.when) - zone(x.when) < MaxOrdinal * 86400 && wrote)
  {
  }

  /** A run that meets a rejected date exits with status 1, whatever the counters say. */
  lemma AbortedExit(run: Run)
    requires run.Ran? && run.report.Aborted?
    ensures ExitStatus(run) == 1
  {
  }
}

/**
 * The shot-date script's loop: every exception is caught, so each file is a success or an
 * error, and an empty list stops the script with status 1.
 */
module ShotBatch {
  import opened Wrappers
  import opened Media
  import opened ShotDate
  import opened Batch
  import opened BatchProofs

  /** Exit status of the shot-date script when no file qualifies. */
  const EmptyStatus := 1

  /**
   * One file of kind `kind`: `probe` is what the tool printed, if it ran, and `written`
   * whether the copy and the write succeeded.
   */
  function ShotOutcome(kind: Kind, probe: Option<string>, written: bool): (o: FileOutcome)
    ensures o == Succeeded || o == Errored
  {
    var result := if kind == Video then ShiftVideo(probe, written) else ShiftPhoto(probe, written);
    if result.Done? then Succeeded else Errored
  }

  /** The script's loop; photos are picked up only when `exiftool` is installed. */
  function ShotRun(entries: seq<Entry>, exiftool: bool, probe: string -> Option<string>, written: string -> bool): (run: Run)
    ensures var files := MediaFiles(entries, ShotKinds(exiftool));
      && (run.NoMedia? <==> |files| == 0)
      && (run.NoMedia? ==> ExitStatus(run) == EmptyStatus)
      && (run.Ran? ==>
        && run.report.Completed?
        && run.report.counts.skipped == 0
        && run.report.counts.success + run.report.counts.error == |files|
        && ExitStatus(run) == 0)
  {
    var files := MediaFiles(entries, ShotKinds(exiftool));
    if |files| == 0 then NoMedia(EmptyStatus)
    else
      var outs := seq(|files|, k requires 0 <= k < |files| =>
        ShotOutcome(files[k].0, probe(files[k].1), written(files[k].1)));
      assert forall k :: 0 <= k < |outs| ==> outs[k] == Succeeded || outs[k] == Errored by {
        forall k | 0 <= k < |outs|
          ensures outs[k] == Succeeded || outs[k] == Errored
        {
          assert outs[k] == ShotOutcome(files[k].0, probe(files[k].1), written(files[k].1));
        }
      }
      CaughtEverywhere(outs);
      Ran(outs, Process(outs))
  }
}
