/**
 * The first part of `load`: one `GetLogEvents` call for the newest events of
 * an instance's stream, and what it sends on the `initial` channel.
 */
module Loader {
  import opened Format
  import opened Channel

  /** The reply of the initial `GetLogEvents` call: its events, or the error it returned. */
  datatype Fetch = Fetched(events: seq<LogEvent>) | FetchFailed(error: string)

  /** The formatted lines of the events whose message is non-empty, in the order of the reply. */
  function Formatted(tf: TimeFormat, events: seq<LogEvent>): (r: seq<string>)
    ensures |r| <= |events|
    ensures forall k :: 0 <= k < |r| ==> |r[k]| >= CanonicalWidth
    decreases |events|
  {
    if events == [] then []
    else
      var last := events[|events| - 1];
      Formatted(tf, events[..|events| - 1]) + (if last.message != "" then [FormatMessage(tf, last)] else [])
  }

  /** Formatting is event by event: the lines of a reply are the lines of its parts, in order. */
  lemma {:induction false} FormattedAppend(tf: TimeFormat, a: seq<LogEvent>, b: seq<LogEvent>)
    ensures Formatted(tf, a + b) == Formatted(tf, a) + Formatted(tf, b)
    decreases |b|
  {
    if b == [] {
      assert a + b == a;
    } else {
      var n := |b| - 1;
      assert (a + b)[..|a + b| - 1] == a + b[..n];
      FormattedAppend(tf, a, b[..n]);
    }
  }

  /** The lines a loader contributes: none when the fetch failed. */
  function BatchLines(tf: TimeFormat, fetch: Fetch): seq<string>
  {
    match fetch
    case Fetched(events) => Formatted(tf, events)
    case FetchFailed(_) => []
  }

  /** Everything a loader sends on `initial`. */
  function Emission(tf: TimeFormat, fetch: Fetch): seq<string>
  {
    BatchLines(tf, fetch) + [Sentinel]
  }

  /**
   * `load` up to its follow loop: sends the non-empty events' lines, then the
   * sentinel (only the sentinel when the fetch failed). `follows` tells
   * whether it goes on to the follow loop: only after a successful fetch of
   * an instance that is not terminated.
   */
  method Load(tf: TimeFormat, fetch: Fetch, terminated: bool) returns (emitted: seq<string>, follows: bool)
    ensures emitted == Emission(tf, fetch)
    ensures follows <==> fetch.Fetched? && !terminated
  {
    if fetch.FetchFailed? {
      emitted, follows := [Sentinel], false;
      return;
    }
    var events := fetch.events;
    emitted := [];
    for k := 0 to |events|
      invariant emitted == Formatted(tf, events[..k])
    {
      assert events[..k + 1][..k] == events[..k];
      if events[k].message != "" {
        emitted := emitted + [FormatMessage(tf, events[k])];
      }
    }
    assert events[..|events|] == events;
    emitted := emitted + [Sentinel];
    follows := !terminated;
  }

  /** Every loader ends its batch with exactly one sentinel, on success and on failure. */
  lemma EmissionEndsWithOneSentinel(tf: TimeFormat, fetch: Fetch)
    ensures IsEmission(Emission(tf, fetch))
    ensures NonEmpty(Emission(tf, fetch)) == BatchLines(tf, fetch)
  {
    var lines := BatchLines(tf, fetch);
    forall k | 0 <= k < |lines| ensures lines[k] != Sentinel {
      assert |lines[k]| >= CanonicalWidth;
    }
    NoSentinelIsKept(lines);
    NonEmptyAppend(lines, [Sentinel]);
  }

  lemma {:induction false} NoSentinelIsKept(lines: seq<string>)
    requires forall k :: 0 <= k < |lines| ==> lines[k] != Sentinel
    ensures NonEmpty(lines) == lines
    decreases |lines|
  {
    if lines != [] {
      NoSentinelIsKept(lines[1..]);
    }
  }
}
