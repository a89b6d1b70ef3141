/**
 * `formatMessage`: turns one CloudWatch Logs event into a printed line.
 * Go's `time.Parse` and `time.Format` are library code; they enter the model
 * as the two fields of a `TimeFormat` value.
 */
module Format {

  /** Width of the legacy syslog stamp `"Jan  2 15:04:05 "` a message may start with. */
  const LegacyWidth := 16

  /** Width of the canonical stamp `"2006-01-02 15:04:05 "` every line starts with. */
  const CanonicalWidth := 20

  /** Renders an epoch-milliseconds timestamp in the canonical layout (local time zone, seconds). */
  type Renderer = render: int -> string | forall ts :: |render(ts)| == CanonicalWidth
    witness (ts: int) => "2006-01-02 15:04:05 "

  /**
   * The two time library calls `formatMessage` makes: whether a 16-character
   * string parses with the legacy layout, and the canonical rendering.
   */
  datatype TimeFormat = TimeFormat(isLegacyStamp: string -> bool, canonical: Renderer)

  /** One event of `GetLogEvents`: milliseconds since the epoch, and the text. */
  datatype LogEvent = LogEvent(timestamp: int, message: string)

  /** Whether the message carries a legacy stamp that is stripped: only when it is longer than the stamp. */
  predicate HasLegacyStamp(tf: TimeFormat, m: string)
  {
    |m| > LegacyWidth && tf.isLegacyStamp(m[..LegacyWidth])
  }

  /** The message with a leading legacy stamp removed. */
  function StripLegacy(tf: TimeFormat, m: string): (r: string)
    ensures HasLegacyStamp(tf, m) ==> m == m[..LegacyWidth] + r && r != []
    ensures !HasLegacyStamp(tf, m) ==> r == m
  {
    if HasLegacyStamp(tf, m) then m[LegacyWidth..] else m
  }

  /** The printed line of one event: canonical stamp, then the message without its legacy stamp. */
  function FormatMessage(tf: TimeFormat, e: LogEvent): (r: string)
    ensures |r| > CanonicalWidth || (|r| == CanonicalWidth && e.message == [])
    ensures r[..CanonicalWidth] == tf.canonical(e.timestamp)
    ensures r[CanonicalWidth..] == StripLegacy(tf, e.message)
  {
    tf.canonical(e.timestamp) + StripLegacy(tf, e.message)
  }

  /** A formatted line is never the empty sentinel. */
  lemma FormattedLineIsNotSentinel(tf: TimeFormat, e: LogEvent)
    ensures FormatMessage(tf, e) != ""
  {
    assert |FormatMessage(tf, e)| >= CanonicalWidth;
  }

  /**
   * The message text survives verbatim exactly when it has no strippable
   * legacy stamp; in particular a message of 16 characters or fewer is never changed.
   */
  lemma MessageKeptIffNoLegacyStamp(tf: TimeFormat, e: LogEvent)
    ensures FormatMessage(tf, e)[CanonicalWidth..] == e.message <==> !HasLegacyStamp(tf, e.message)
    ensures |e.message| <= LegacyWidth ==> FormatMessage(tf, e) == tf.canonical(e.timestamp) + e.message
  {
    var r := FormatMessage(tf, e);
    if HasLegacyStamp(tf, e.message) {
      assert |r[CanonicalWidth..]| == |e.message| - LegacyWidth;
    }
  }
}
