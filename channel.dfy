/**
 * The protocol of the `initial` channel: loaders send formatted lines and,
 * when their first batch is done, one empty string as a completion sentinel.
 */
module Channel {

  /** The completion sentinel a loader sends on `initial`. */
  const Sentinel := ""

  /** The lines of a message sequence, sentinels dropped, in arrival order. */
  function NonEmpty(s: seq<string>): (r: seq<string>)
    ensures forall k :: 0 <= k < |r| ==> r[k] != Sentinel
    decreases |s|
  {
    if s == [] then []
    else
      assert s == [s[0]] + s[1..];
      (if s[0] != Sentinel then [s[0]] else []) + NonEmpty(s[1..])
  }

  /** The number of sentinels in a message sequence. */
  function Sentinels(s: seq<string>): (n: nat)
    ensures n + |NonEmpty(s)| == |s|
    decreases |s|
  {
    if s == [] then 0
    else
      assert s == [s[0]] + s[1..];
      (if s[0] == Sentinel then 1 else 0) + Sentinels(s[1..])
  }

  lemma {:induction false} NonEmptyAppend(a: seq<string>, b: seq<string>)
    ensures NonEmpty(a + b) == NonEmpty(a) + NonEmpty(b)
    decreases |a|
  {
    if a == [] {
      assert a + b == b;
    } else {
      var head := if a[0] != Sentinel then [a[0]] else [];
      assert (a + b)[0] == a[0] && (a + b)[1..] == a[1..] + b;
      assert NonEmpty(a + b) == head + NonEmpty(a[1..] + b);
      NonEmptyAppend(a[1..], b);
      assert NonEmpty(a) == head + NonEmpty(a[1..]);
    }
  }

  lemma {:induction false} SentinelsAppend(a: seq<string>, b: seq<string>)
    ensures Sentinels(a + b) == Sentinels(a) + Sentinels(b)
    decreases |a|
  {
    if a == [] {
      assert a + b == b;
    } else {
      assert (a + b)[0] == a[0] && (a + b)[1..] == a[1..] + b;
      SentinelsAppend(a[1..], b);
    }
  }

  /** What one loader sends on `initial`: lines, then exactly one sentinel, last. */
  predicate IsEmission(p: seq<string>)
  {
    |p| >= 1 && p[|p| - 1] == Sentinel && forall k :: 0 <= k < |p| - 1 ==> p[k] != Sentinel
  }
}
