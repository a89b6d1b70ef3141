/**
 * `Run`: selects the instances, launches one loader per instance, drains the
 * loaders' first batches, and prints the newest lines in order.
 */
module AwsLogTail {
  import opened Wrappers
  import opened LexOrder
  import opened Format
  import opened Channel
  import opened Selection
  import opened Loader
  import opened Aggregation

  /** How many lines `Run` prints from the first batches (also the `Limit` of each fetch). */
  const LogEventLimit := 100

  /** The error `Run` returns when no instance is selected. */
  const NoInstances := "No instances"

  /** How `Run` ends: an error before anything is printed, a drain that never ends, or the printed lines. */
  datatype Outcome = Failed(error: string) | Blocked | Printed(lines: seq<string>)

  /**
   * What `Run` does with the `DescribeInstances` reply (or its error), the
   * filter, and the messages that arrive on the `initial` channel.
   */
  function RunSpec(described: Result<seq<Reservation>>, filter: seq<string>, initial: seq<string>): Outcome
  {
    match described
    case Err(e) => Failed(e)
    case Ok(reservations) =>
      var count := |Selected(filter, reservations)|;
      if count == 0 then Failed(NoInstances)
      else
        match Drained(initial, count)
        case None => Blocked
        case Some(lines) => Printed(Latest(SortStrings(lines), LogEventLimit))
  }

  /**
   * `Run` up to the follow phase. `launched` lists the `go load(...)` calls;
   * `initial` is what those loaders send, in the order it arrives.
   */
  method Run(described: Result<seq<Reservation>>, filter: seq<string>, initial: seq<string>)
    returns (outcome: Outcome, launched: seq<Launch>)
    ensures launched == if described.Ok? then Selected(filter, described.value) else []
    ensures outcome == RunSpec(described, filter, initial)
  {
    if described.Err? {
      return Failed(described.error), [];
    }
    var count;
    launched, count := Launches(filter, described.value);
    if count == 0 {
      outcome := Failed(NoInstances);
      return;
    }
    var drained, _ := Drain(initial, count);
    if drained.None? {
      outcome := Blocked;
      return;
    }
    var sorted := SortStrings(drained.value);
    var lines := sorted;
    if |lines| > LogEventLimit {
      lines := lines[|lines| - LogEventLimit..];
    }
    assert lines == Latest(sorted, LogEventLimit);
    outcome := Printed(lines);
  }

  /** `Run` fails with "No instances", printing nothing, exactly when the filter selects no instance. */
  lemma NoInstancesIffNoneSelected(reservations: seq<Reservation>, filter: seq<string>, initial: seq<string>)
    ensures RunSpec(Ok(reservations), filter, initial) == Failed(NoInstances) <==> |Selected(filter, reservations)| == 0
  {
  }

  /**
   * The printed lines are the greatest of the drained lines: ascending, at
   * most 100 of them, a suffix of the sorted drained lines, and no drained
   * line left out is above one printed.
   */
  lemma PrintedLinesAreTheNewest(reservations: seq<Reservation>, filter: seq<string>, initial: seq<string>, drained: seq<string>)
    requires |Selected(filter, reservations)| >= 1
    requires Drained(initial, |Selected(filter, reservations)|) == Some(drained)
    ensures var sorted := SortStrings(drained);
            var out := Latest(sorted, LogEventLimit);
            && RunSpec(Ok(reservations), filter, initial) == Printed(out)
            && Sorted(out)
            && |out| == (if |drained| > LogEventLimit then LogEventLimit else |drained|)
            && out == sorted[|sorted| - |out|..]
            && multiset(sorted) == multiset(drained)
            && forall d, k :: 0 <= d < |sorted| - |out| <= k < |sorted| ==> LexLe(sorted[d], sorted[k])
  {
    RunPrintsDrained(reservations, filter, initial, drained);
    LatestKeepsGreatest(SortStrings(drained), LogEventLimit);
  }

  lemma RunPrintsDrained(reservations: seq<Reservation>, filter: seq<string>, initial: seq<string>, drained: seq<string>)
    requires |Selected(filter, reservations)| >= 1
    requires Drained(initial, |Selected(filter, reservations)|) == Some(drained)
    ensures RunSpec(Ok(reservations), filter, initial) == Printed(Latest(SortStrings(drained), LogEventLimit))
  {
  }

  /** What the loaders send: loader `i` got reply `fetches[i]`. */
  function Emissions(tf: TimeFormat, fetches: seq<Fetch>): (parts: seq<seq<string>>)
    ensures |parts| == |fetches|
    ensures forall i :: 0 <= i < |fetches| ==> parts[i] == Emission(tf, fetches[i])
  {
    seq(|fetches|, i requires 0 <= i < |fetches| => Emission(tf, fetches[i]))
  }

  /** Every line of every successful fetch, stream after stream. */
  function AllBatchLines(tf: TimeFormat, fetches: seq<Fetch>): (r: seq<string>)
    ensures forall k :: 0 <= k < |r| ==> |r[k]| >= CanonicalWidth
    decreases |fetches|
  {
    if fetches == [] then []
    else
      var first := BatchLines(tf, fetches[0]);
      assert forall k :: 0 <= k < |first| ==> |first[k]| >= CanonicalWidth;
      first + AllBatchLines(tf, fetches[1..])
  }

  lemma {:induction false} EmissionsCarryAllLines(tf: TimeFormat, fetches: seq<Fetch>)
    ensures AllLines(Emissions(tf, fetches)) == AllBatchLines(tf, fetches)
    ensures Unfinished(Emissions(tf, fetches)) == |fetches|
    ensures EmissionsOrDone(Emissions(tf, fetches))
    decreases |fetches|
  {
    var parts := Emissions(tf, fetches);
    forall i | 0 <= i < |fetches| ensures IsEmission(parts[i]) {
      EmissionEndsWithOneSentinel(tf, fetches[i]);
    }
    if fetches != [] {
      assert parts[1..] == Emissions(tf, fetches[1..]);
      EmissionEndsWithOneSentinel(tf, fetches[0]);
      EmissionsCarryAllLines(tf, fetches[1..]);
    }
  }

  /**
   * However the loaders' messages interleave on `initial`, `Run` prints the
   * greatest 100 of all lines of all successful fetches, in ascending order:
   * a failed fetch contributes nothing and does not stop the others.
   */
  lemma PrintsNewestLinesOfAllStreams(
    tf: TimeFormat, reservations: seq<Reservation>, filter: seq<string>, fetches: seq<Fetch>, initial: seq<string>)
    requires |Selected(filter, reservations)| >= 1
    requires |fetches| == |Selected(filter, reservations)|
    requires IsInterleaving(initial, Emissions(tf, fetches))
    ensures RunSpec(Ok(reservations), filter, initial) == Printed(Latest(SortStrings(AllBatchLines(tf, fetches)), LogEventLimit))
  {
    var parts := Emissions(tf, fetches);
    EmissionsCarryAllLines(tf, fetches);
    DrainCollectsEveryLine(initial, parts);
    SortStringsOfPermutation(Drained(initial, |fetches|).value, AllBatchLines(tf, fetches));
  }

  /** Sorted lines that all carry a canonical stamp are sorted by that stamp. */
  lemma SortedLinesAscendByStamp(out: seq<string>)
    requires Sorted(out)
    requires forall k :: 0 <= k < |out| ==> |out[k]| >= CanonicalWidth
    ensures forall i, j :: 0 <= i < j < |out| ==> LexLe(out[i][..CanonicalWidth], out[j][..CanonicalWidth])
  {
    forall i, j | 0 <= i < j < |out|
      ensures LexLe(out[i][..CanonicalWidth], out[j][..CanonicalWidth])
    {
      LexLePrefixes(out[i], out[j], CanonicalWidth);
    }
  }

  /** Sorting and truncating keep only lines that were there, so each still carries its stamp. */
  lemma NewestLinesAreStamped(all: seq<string>)
    requires forall k :: 0 <= k < |all| ==> |all[k]| >= CanonicalWidth
    ensures var out := Latest(SortStrings(all), LogEventLimit);
            Sorted(out) && forall k :: 0 <= k < |out| ==> |out[k]| >= CanonicalWidth
  {
    var sorted := SortStrings(all);
    var out := Latest(sorted, LogEventLimit);
    forall k | 0 <= k < |out| ensures |out[k]| >= CanonicalWidth {
      assert out[k] == sorted[|sorted| - |out| + k];
      assert out[k] in multiset(all);
    }
    LatestKeepsGreatest(sorted, LogEventLimit);
  }

  /**
   * Under the same conditions the printed lines ascend by the text of their
   * canonical stamp: sorting whole lines sorts them by that prefix first.
   */
  lemma PrintedLinesAscendByTimestamp(
    tf: TimeFormat, reservations: seq<Reservation>, filter: seq<string>, fetches: seq<Fetch>, initial: seq<string>)
    requires |Selected(filter, reservations)| >= 1
    requires |fetches| == |Selected(filter, reservations)|
    requires IsInterleaving(initial, Emissions(tf, fetches))
    ensures RunSpec(Ok(reservations), filter, initial).Printed?
    ensures var out := RunSpec(Ok(reservations), filter, initial).lines;
            forall k :: 0 <= k < |out| ==> |out[k]| >= CanonicalWidth
    ensures var out := RunSpec(Ok(reservations), filter, initial).lines;
            forall i, j :: 0 <= i < j < |out| ==> LexLe(out[i][..CanonicalWidth], out[j][..CanonicalWidth])
  {
    PrintsNewestLinesOfAllStreams(tf, reservations, filter, fetches, initial);
    var all := AllBatchLines(tf, fetches);
    NewestLinesAreStamped(all);
    SortedLinesAscendByStamp(Latest(SortStrings(all), LogEventLimit));
  }
}
