/**
 * The middle of `Run`: draining the `initial` channel until every launched
 * loader has sent its sentinel, then keeping the newest lines.
 */
module Aggregation {
  import opened Wrappers
  import opened Channel
  import opened LexOrder

  /**
   * The lines the drain collects from `msgs` while `pending` sentinels are
   * still awaited; `None` when `msgs` ends first (the Go loop would block).
   */
  function Drained(msgs: seq<string>, pending: nat): Option<seq<string>>
    requires pending >= 1
    decreases |msgs|
  {
    if msgs == [] then None
    else if msgs[0] != Sentinel then
      match Drained(msgs[1..], pending)
      case None => None
      case Some(rest) => Some([msgs[0]] + rest)
    else if pending == 1 then Some([])
    else Drained(msgs[1..], pending - 1)
  }

  lemma {:induction false} SentinelCounted(s: seq<string>, j: nat)
    requires j < |s| && s[j] == Sentinel
    ensures Sentinels(s) >= 1
    decreases j
  {
    if j > 0 {
      assert s[1..][j - 1] == s[j];
      SentinelCounted(s[1..], j - 1);
    }
  }

  /**
   * The drain stops at the `pending`-th sentinel, at position `k - 1`, and
   * returns exactly the lines before it, in arrival order.
   */
  lemma {:induction false} DrainedStopsAtLastSentinel(msgs: seq<string>, pending: nat, k: nat)
    requires pending >= 1 && 1 <= k <= |msgs|
    requires msgs[k - 1] == Sentinel && Sentinels(msgs[..k]) == pending
    ensures Drained(msgs, pending) == Some(NonEmpty(msgs[..k]))
    decreases k
  {
    var tail := msgs[1..][..k - 1];
    assert msgs[..k][0] == msgs[0] && msgs[..k][1..] == tail;
    assert Sentinels(msgs[..k]) == (if msgs[0] == Sentinel then 1 else 0) + Sentinels(tail);
    assert NonEmpty(msgs[..k]) == (if msgs[0] != Sentinel then [msgs[0]] else []) + NonEmpty(tail);
    if k == 1 {
      assert tail == [];
    } else {
      assert tail[k - 2] == Sentinel;
      SentinelCounted(tail, k - 2);
      if msgs[0] != Sentinel {
        DrainedStopsAtLastSentinel(msgs[1..], pending, k - 1);
        assert Drained(msgs, pending) == Some([msgs[0]] + NonEmpty(tail));
      } else {
        DrainedStopsAtLastSentinel(msgs[1..], pending - 1, k - 1);
        assert Drained(msgs, pending) == Drained(msgs[1..], pending - 1);
        assert NonEmpty(msgs[..k]) == NonEmpty(tail);
      }
    }
  }

  /** With fewer sentinels than awaited, the drain never ends. */
  lemma {:induction false} DrainedBlocks(msgs: seq<string>, pending: nat)
    requires pending >= 1 && Sentinels(msgs) < pending
    ensures Drained(msgs, pending) == None
    decreases |msgs|
  {
    if msgs != [] {
      if msgs[0] != Sentinel || pending > 1 {
        DrainedBlocks(msgs[1..], if msgs[0] != Sentinel then pending else pending - 1);
      }
    }
  }

  lemma ArrivalStep(msgs: seq<string>, k: nat)
    requires k < |msgs|
    ensures msgs[k] != Sentinel ==> NonEmpty(msgs[..k + 1]) == NonEmpty(msgs[..k]) + [msgs[k]]
    ensures msgs[k] == Sentinel ==> NonEmpty(msgs[..k + 1]) == NonEmpty(msgs[..k])
    ensures Sentinels(msgs[..k + 1]) == Sentinels(msgs[..k]) + (if msgs[k] == Sentinel then 1 else 0)
  {
    assert msgs[..k + 1] == msgs[..k] + [msgs[k]];
    NonEmptyAppend(msgs[..k], [msgs[k]]);
    SentinelsAppend(msgs[..k], [msgs[k]]);
    assert [msgs[k]][1..] == [];
    assert NonEmpty([msgs[k]]) == (if msgs[k] != Sentinel then [msgs[k]] else []) + NonEmpty([]);
  }

  /**
   * The drain loop of `Run`: appends each line, counts down on each sentinel,
   * and stops when the count reaches zero. On success it has consumed the
   * messages up to and including the `count`-th sentinel and nothing after.
   */
  method Drain(msgs: seq<string>, count: nat) returns (lines: Option<seq<string>>, consumed: nat)
    requires count >= 1
    ensures lines == Drained(msgs, count)
    ensures lines.Some? <==> Sentinels(msgs) >= count
    ensures consumed <= |msgs|
    ensures lines.Some? ==>
              && 1 <= consumed && msgs[consumed - 1] == Sentinel
              && Sentinels(msgs[..consumed]) == count
              && lines.value == NonEmpty(msgs[..consumed])
  {
    var collected: seq<string> := [];
    var pending := count;
    consumed := 0;
    while consumed < |msgs|
      invariant consumed <= |msgs|
      invariant collected == NonEmpty(msgs[..consumed])
      invariant pending >= 1 && pending + Sentinels(msgs[..consumed]) == count
    {
      var line := msgs[consumed];
      ArrivalStep(msgs, consumed);
      consumed := consumed + 1;
      if line != Sentinel {
        collected := collected + [line];
      } else {
        pending := pending - 1;
        if pending == 0 {
          lines := Some(collected);
          DrainedStopsAtLastSentinel(msgs, count, consumed);
          assert msgs == msgs[..consumed] + msgs[consumed..];
          SentinelsAppend(msgs[..consumed], msgs[consumed..]);
          return;
        }
      }
    }
    assert msgs[..consumed] == msgs;
    DrainedBlocks(msgs, count);
    lines := None;
  }

  /** The newest `limit` lines of a sorted list: its last `limit` elements, or all of it. */
  function Latest(sorted: seq<string>, limit: nat): (r: seq<string>)
    ensures |r| == if |sorted| > limit then limit else |sorted|
    ensures r == sorted[|sorted| - |r|..]
  {
    if |sorted| > limit then sorted[|sorted| - limit..] else sorted
  }

  /** Truncation keeps the greatest lines: the kept ones are sorted and none is below a dropped one. */
  lemma LatestKeepsGreatest(sorted: seq<string>, limit: nat)
    requires Sorted(sorted)
    ensures Sorted(Latest(sorted, limit))
    ensures forall d, k :: 0 <= d < |sorted| - |Latest(sorted, limit)| <= k < |sorted| ==> LexLe(sorted[d], sorted[k])
  {
    var r := Latest(sorted, limit);
    forall i, j | 0 <= i < j < |r| ensures LexLe(r[i], r[j]) {
      assert r[i] == sorted[|sorted| - |r| + i] && r[j] == sorted[|sorted| - |r| + j];
    }
  }

  /** `msgs` is an interleaving of `parts`: each part's order kept, nothing added or lost. */
  ghost predicate IsInterleaving(msgs: seq<string>, parts: seq<seq<string>>)
    decreases |msgs|
  {
    if msgs == [] then forall i :: 0 <= i < |parts| ==> parts[i] == []
    else
      exists i :: 0 <= i < |parts| && parts[i] != [] && parts[i][0] == msgs[0] &&
                  IsInterleaving(msgs[1..], parts[i := parts[i][1..]])
  }

  /** The number of parts with something still to send. */
  function Unfinished(parts: seq<seq<string>>): nat
    decreases |parts|
  {
    if parts == [] then 0 else (if parts[0] != [] then 1 else 0) + Unfinished(parts[1..])
  }

  /** All lines of all parts, part after part. */
  function AllLines(parts: seq<seq<string>>): seq<string>
    decreases |parts|
  {
    if parts == [] then [] else NonEmpty(parts[0]) + AllLines(parts[1..])
  }

  lemma {:induction false} UnfinishedUpdate(parts: seq<seq<string>>, i: nat, q: seq<string>)
    requires i < |parts|
    ensures Unfinished(parts[i := q]) + (if parts[i] != [] then 1 else 0) == Unfinished(parts) + (if q != [] then 1 else 0)
    decreases |parts|
  {
    if i > 0 {
      assert parts[i := q][1..] == parts[1..][i - 1 := q];
      UnfinishedUpdate(parts[1..], i - 1, q);
    } else {
      assert parts[i := q][1..] == parts[1..];
    }
  }

  lemma AllLinesCons(parts: seq<seq<string>>)
    requires parts != []
    ensures multiset(AllLines(parts)) == multiset(NonEmpty(parts[0])) + multiset(AllLines(parts[1..]))
  {
    assert AllLines(parts) == NonEmpty(parts[0]) + AllLines(parts[1..]);
  }

  lemma MultisetExtend(h: multiset<string>, a: multiset<string>, b: multiset<string>, c: multiset<string>, d: multiset<string>)
    requires a + b == c + d
    ensures h + a + b == h + c + d
  {
    forall x
      ensures (h + a + b)[x] == (h + c + d)[x]
    {
      assert (a + b)[x] == a[x] + b[x] && (c + d)[x] == c[x] + d[x];
    }
  }

  lemma {:induction false} AllLinesUpdate(parts: seq<seq<string>>, i: nat, q: seq<string>)
    requires i < |parts|
    ensures multiset(AllLines(parts[i := q])) + multiset(NonEmpty(parts[i])) == multiset(AllLines(parts)) + multiset(NonEmpty(q))
    decreases |parts|
  {
    var updated := parts[i := q];
    AllLinesCons(parts);
    AllLinesCons(updated);
    if i > 0 {
      assert updated[0] == parts[0];
      assert updated[1..] == parts[1..][i - 1 := q];
      assert parts[1..][i - 1] == parts[i];
      AllLinesUpdate(parts[1..], i - 1, q);
      MultisetExtend(multiset(NonEmpty(parts[0])), multiset(AllLines(parts[1..][i - 1 := q])), multiset(NonEmpty(parts[i])),
                     multiset(AllLines(parts[1..])), multiset(NonEmpty(q)));
    } else {
      assert updated[1..] == parts[1..];
    }
  }

  lemma {:induction false} NoneUnfinished(parts: seq<seq<string>>)
    requires forall i :: 0 <= i < |parts| ==> parts[i] == []
    ensures Unfinished(parts) == 0
    decreases |parts|
  {
    if parts != [] {
      NoneUnfinished(parts[1..]);
    }
  }

  lemma {:induction false} FinishedHaveNoLines(parts: seq<seq<string>>)
    requires Unfinished(parts) == 0
    ensures AllLines(parts) == []
    decreases |parts|
  {
    if parts != [] {
      FinishedHaveNoLines(parts[1..]);
    }
  }

  /** Every part is a loader's emission, or has been sent completely. */
  predicate EmissionsOrDone(parts: seq<seq<string>>)
  {
    forall j :: 0 <= j < |parts| ==> parts[j] == [] || IsEmission(parts[j])
  }

  /** Sending the first message of an emission leaves an emission, or nothing once the sentinel is sent. */
  lemma AdvancePart(parts: seq<seq<string>>, i: nat)
    requires i < |parts| && parts[i] != []
    requires EmissionsOrDone(parts)
    ensures EmissionsOrDone(parts[i := parts[i][1..]])
    ensures parts[i][0] == Sentinel ==> parts[i] == [Sentinel]
    ensures parts[i][0] != Sentinel ==> |parts[i]| >= 2
  {
    var p := parts[i];
    assert IsEmission(p);
    if p[1..] != [] {
      assert p[1..][|p[1..]| - 1] == p[|p| - 1];
      assert IsEmission(p[1..]);
    }
  }

  /** The first message of an interleaving is the first message of some part. */
  lemma FirstArrival(msgs: seq<string>, parts: seq<seq<string>>) returns (i: nat)
    requires IsInterleaving(msgs, parts) && msgs != []
    ensures i < |parts| && parts[i] != [] && parts[i][0] == msgs[0]
    ensures IsInterleaving(msgs[1..], parts[i := parts[i][1..]])
  {
    i :| 0 <= i < |parts| && parts[i] != [] && parts[i][0] == msgs[0] &&
      IsInterleaving(msgs[1..], parts[i := parts[i][1..]]);
  }

  /** An empty interleaving leaves every part finished. */
  lemma NothingArrives(parts: seq<seq<string>>)
    requires IsInterleaving([], parts)
    ensures Unfinished(parts) == 0
  {
    NoneUnfinished(parts);
  }

  lemma LinesOfAdvance(p: seq<string>)
    requires p != []
    ensures multiset(NonEmpty(p)) == multiset(NonEmpty(p[1..])) + (if p[0] != Sentinel then multiset{p[0]} else multiset{})
  {
    assert NonEmpty(p) == (if p[0] != Sentinel then [p[0]] else []) + NonEmpty(p[1..]);
  }

  lemma MultisetCancel(a: multiset<string>, b: multiset<string>, c: multiset<string>)
    requires a + c == b + c
    ensures a == b
  {
    forall x
      ensures a[x] == b[x]
    {
      assert (a + c)[x] == a[x] + c[x] && (b + c)[x] == b[x] + c[x];
    }
  }

  /** A line from part `i` arrives: it is collected, and the drain goes on awaiting as many sentinels. */
  lemma LineArrives(msgs: seq<string>, parts: seq<seq<string>>, i: nat, pending: nat, later: seq<string>)
    requires msgs != [] && msgs[0] != Sentinel && pending >= 1
    requires i < |parts| && parts[i] != [] && parts[i][0] == msgs[0]
    requires Drained(msgs[1..], pending) == Some(later)
    requires multiset(later) == multiset(AllLines(parts[i := parts[i][1..]]))
    ensures Drained(msgs, pending) == Some([msgs[0]] + later)
    ensures multiset([msgs[0]] + later) == multiset(AllLines(parts))
  {
    var p := parts[i];
    var kept := multiset(AllLines(parts[i := p[1..]]));
    var after := multiset(NonEmpty(p[1..]));
    AllLinesUpdate(parts, i, p[1..]);
    LinesOfAdvance(p);
    assert kept + multiset(NonEmpty(p)) == multiset(AllLines(parts)) + after;
    assert multiset(NonEmpty(p)) == after + multiset{p[0]};
    MultisetCancel(kept + multiset{p[0]}, multiset(AllLines(parts)), after);
    assert multiset([msgs[0]] + later) == multiset{msgs[0]} + multiset(later);
  }

  /** A sentinel arrives while others are still awaited: nothing is collected. */
  lemma SentinelArrives(msgs: seq<string>, parts: seq<seq<string>>, i: nat, pending: nat, later: seq<string>)
    requires msgs != [] && msgs[0] == Sentinel && pending >= 2
    requires i < |parts| && parts[i] == [Sentinel]
    requires Drained(msgs[1..], pending - 1) == Some(later)
    requires multiset(later) == multiset(AllLines(parts[i := []]))
    ensures Drained(msgs, pending) == Some(later)
    ensures multiset(later) == multiset(AllLines(parts))
  {
    AllLinesUpdate(parts, i, []);
    assert NonEmpty([Sentinel]) == [] && NonEmpty([]) == [];
    var kept := multiset(AllLines(parts[i := []]));
    assert kept + multiset{} == multiset(AllLines(parts)) + multiset{};
    assert kept + multiset{} == kept;
    assert multiset(AllLines(parts)) + multiset{} == multiset(AllLines(parts));
  }

  /** The last awaited sentinel arrives: the drain ends, and no part has lines left. */
  lemma LastSentinelArrives(msgs: seq<string>, parts: seq<seq<string>>, i: nat)
    requires msgs != [] && msgs[0] == Sentinel
    requires i < |parts| && parts[i] == [Sentinel]
    requires Unfinished(parts) == 1
    ensures Drained(msgs, 1) == Some([])
    ensures multiset(AllLines(parts)) == multiset{}
  {
    UnfinishedUpdate(parts, i, []);
    AllLinesUpdate(parts, i, []);
    FinishedHaveNoLines(parts[i := []]);
    assert NonEmpty([Sentinel]) == [];
  }

  /**
   * However the loaders' emissions interleave on the channel, draining for
   * one sentinel per loader terminates and collects every line of every
   * loader (as a multiset: the arrival order is the interleaving's).
   */
  lemma {:induction false} DrainCollectsEveryLine(msgs: seq<string>, parts: seq<seq<string>>)
    requires IsInterleaving(msgs, parts)
    requires EmissionsOrDone(parts)
    requires Unfinished(parts) >= 1
    ensures Drained(msgs, Unfinished(parts)).Some?
    ensures multiset(Drained(msgs, Unfinished(parts)).value) == multiset(AllLines(parts))
    decreases |msgs|, 1
  {
    if msgs == [] {
      NothingArrives(parts);
      assert false;
    }
    var i := FirstArrival(msgs, parts);
    AdvancePart(parts, i);
    if msgs[0] != Sentinel {
      DrainAfterLine(msgs, parts, i);
    } else if Unfinished(parts) == 1 {
      LastSentinelArrives(msgs, parts, i);
    } else {
      DrainAfterSentinel(msgs, parts, i);
    }
  }

  /** The induction step of DrainCollectsEveryLine when a line arrives first. */
  lemma {:induction false} DrainAfterLine(msgs: seq<string>, parts: seq<seq<string>>, i: nat)
    requires msgs != [] && msgs[0] != Sentinel
    requires i < |parts| && |parts[i]| >= 2 && parts[i][0] == msgs[0]
    requires IsInterleaving(msgs[1..], parts[i := parts[i][1..]])
    requires EmissionsOrDone(parts[i := parts[i][1..]])
    requires Unfinished(parts) >= 1
    ensures Drained(msgs, Unfinished(parts)).Some?
    ensures multiset(Drained(msgs, Unfinished(parts)).value) == multiset(AllLines(parts))
    decreases |msgs|, 0
  {
    var rest := parts[i := parts[i][1..]];
    var pending := Unfinished(parts);
    UnfinishedUpdate(parts, i, parts[i][1..]);
    assert Unfinished(rest) == pending;
    DrainCollectsEveryLine(msgs[1..], rest);
    var later := Drained(msgs[1..], pending).value;
    assert multiset(later) == multiset(AllLines(rest));
    LineArrives(msgs, parts, i, pending, later);
  }

  /** The induction step of DrainCollectsEveryLine when a sentinel arrives first and others are awaited. */
  lemma {:induction false} DrainAfterSentinel(msgs: seq<string>, parts: seq<seq<string>>, i: nat)
    requires msgs != [] && msgs[0] == Sentinel
    requires i < |parts| && parts[i] == [Sentinel]
    requires IsInterleaving(msgs[1..], parts[i := parts[i][1..]])
    requires EmissionsOrDone(parts[i := parts[i][1..]])
    requires Unfinished(parts) >= 2
    ensures Drained(msgs, Unfinished(parts)).Some?
    ensures multiset(Drained(msgs, Unfinished(parts)).value) == multiset(AllLines(parts))
    decreases |msgs|, 0
  {
    assert parts[i][1..] == [];
    var rest := parts[i := []];
    var pending := Unfinished(parts);
    UnfinishedUpdate(parts, i, []);
    assert Unfinished(rest) == pending - 1;
    DrainCollectsEveryLine(msgs[1..], rest);
    var later := Drained(msgs[1..], pending - 1).value;
    assert multiset(later) == multiset(AllLines(rest));
    SentinelArrives(msgs, parts, i, pending, later);
  }
}
