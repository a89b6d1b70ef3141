# awslogtail, modelled in Dafny

awslogtail prints the newest CloudWatch Logs events of a fleet of EC2
instances. `Run` lists the instances, keeps those whose `Name` tag starts
with one of the filter strings (all of them when the filter is empty), and
starts one loader per kept instance. Each loader fetches the newest events of
its instance's stream and sends the formatted lines of the events whose
message is non-empty on a shared `initial` channel, followed by one empty
string as a completion sentinel. `Run` drains
that channel until every loader's sentinel has arrived, sorts the collected
lines, and prints the last 100. A formatted line is a canonical
`2006-01-02 15:04:05 ` stamp of the event's time followed by its message,
from which a leading syslog stamp `Jan  2 15:04:05 ` is removed.

This project models that sequential core of `awslogtail.go`:

- `selection.dfy` (module `Selection`): the instance and tag loops of `Run`. They are
  written as methods with loops, proved against the functions `NameOf` and `Selected`.
- `loader.dfy` (module `Loader`): the first part of `load`, up to the follow
  loop. `Load` is a method whose loop sends the lines.
- `channel.dfy` (module `Channel`): the sentinel protocol of the `initial` channel.
- `aggregation.dfy` (module `Aggregation`): the drain loop (`Drain`, proved
  against `Drained`) and the truncation to the newest lines (`Latest`). It also
  holds the theorem that any interleaving of the loaders' messages drains to
  every line of every loader.
- `lexorder.dfy` (module `LexOrder`): Go's byte-wise string order and
  `sort.Strings`, as a sorting function proved to return a sorted permutation.
  A sorted permutation is unique, so any sorting algorithm yields the same list.
- `format.dfy` (module `Format`): `formatMessage`.
- `awslogtail.dfy` (module `AwsLogTail`): `Run` up to its follow phase, and
  the end-to-end theorems.

Conventions of the model:

- A Go string is a byte string. A Dafny `string` stands for it, with one
  `char` per byte. `len`, slicing, `strings.HasPrefix` and string comparison
  therefore keep their byte-wise meaning.
- `time.Parse` with the layout `"Jan  2 15:04:05 "` and `time.Format` with
  `"2006-01-02 15:04:05 "` are library code. They enter the model as the two
  fields of a `TimeFormat` value that every formatting function takes:
  - `isLegacyStamp` is any predicate on the 16-character prefix.
  - `canonical` is any rendering of a millisecond timestamp to 20 characters.
- The AWS replies are inputs:
  - `DescribeInstances` gives a `Result` holding the reservations or the error.
  - The first `GetLogEvents` call of each loader gives a `Fetch`, which holds
    the events or the error.
- The `initial` channel is the sequence of messages in the order they
  arrive. The end-to-end theorems assume that this sequence interleaves what
  the loaders send (`IsInterleaving`). `Drained` returns `None`, and `Run`
  ends as `Blocked`, when the sequence holds fewer sentinels than loaders.
  The Go loop would wait forever in that case.

Points of the code's behaviour worth stating plainly:

- The syslog stamp is stripped only from messages strictly longer than 16
  characters. A message of exactly 16 characters is kept as it is.
- `sort.Strings` sorts whole lines, so lines with equal stamps are ordered by
  their message text, not by arrival. `PrintedLinesAscendByTimestamp` proves
  that the stamp texts still ascend.
- `Run` in `awslogtail.go` takes only the configuration and the filter. It
  always tails the newest 100 events, and it always follows every instance
  that is not terminated and whose first fetch succeeded
  (awslogtail.go:110-114, 124-126). The callers in `main.go`
  and `cmd/main.go` pass a `follow` flag, a `limit` and `since`/`until`
  times; this `Run` has no such parameters, and they are not modelled.

## Model

| member | source | states |
|---|---|---|
| `Selection.InstanceName` | awslogtail.go:40-47 | the tag loop returns the name `NameOf` gives: the value of the first tag keyed `Name`, scanning stops there |
| `Selection.NameOfIsFirstNameTag` | awslogtail.go:42-46 | when tag `k` is the first keyed `Name`, the instance's name is that tag's value; later `Name` tags do not override it |
| `Selection.NameOfUntagged` | awslogtail.go:40-47 | an instance without a `Name` tag has the empty name |
| `Selection.MatchesFilter` | awslogtail.go:49-56 | the filter loop answers true exactly when some filter entry is a prefix of the name |
| `Selection.PassesFilter` | awslogtail.go:39-61 | an instance passes the filter test exactly when the filter is empty or an entry is a prefix of its `Name` tag (empty when untagged) |
| `Selection.Launches` | awslogtail.go:37-66 | the nested loops launch one loader per selected instance, in reply order, with `terminated` = state code 48; `count` equals the number of launches |
| `Selection.SelectedMembership` | awslogtail.go:37-65 | a launch is made exactly for each instance of any reservation that the filter selects (empty filter, or a filter entry that is a prefix of its name) |
| `Selection.SelectedFromMembership` | awslogtail.go:38-65 | within one reservation, a launch is made exactly for each selected instance |
| `Selection.EmptyFilterSelectsAll` | awslogtail.go:39 | with an empty filter the number of launches equals the number of instances in the reply |
| `Selection.UnnamedSelectedIffEmptyEntry` | awslogtail.go:51-56 | with a non-empty filter, an instance with the empty name is selected exactly when the filter contains the empty string |
| `Format.StripLegacy` | awslogtail.go:155-159 | when the message is longer than 16 characters and its first 16 parse as a legacy stamp, the result is what follows those 16 and is non-empty; otherwise the message is unchanged |
| `Format.FormatMessage` | awslogtail.go:152-164 | the line starts with the 20-character canonical stamp of the event's timestamp, followed by the message without its legacy stamp; it is longer than 20 characters unless the message is empty |
| `Format.MessageKeptIffNoLegacyStamp` | awslogtail.go:155-163 | the message survives verbatim exactly when it has no strippable stamp; a message of 16 characters or fewer is never stripped |
| `Format.FormattedLineIsNotSentinel` | awslogtail.go:161-163 | a formatted line is never the empty sentinel |
| `Loader.Load` | awslogtail.go:103-126 | sends the lines of the non-empty events and then the sentinel, or only the sentinel when the fetch failed; it goes on to follow only after a successful fetch of an instance that is not terminated |
| `Loader.Formatted` | awslogtail.go:116-120 | the initial batch has at most one line per event, and each line is at least as long as the 20-character stamp it starts with |
| `Loader.FormattedAppend` | awslogtail.go:116-120 | lines go out event by event, in the order of the reply |
| `Loader.EmissionEndsWithOneSentinel` | awslogtail.go:110-122 | what a loader sends ends with exactly one sentinel, on the error path and the success path, and its other messages are the batch's lines |
| `Channel.NonEmptyAppend` | awslogtail.go:75-78 | lines are collected message by message, in arrival order |
| `Aggregation.Drain` | awslogtail.go:73-84 | the drain loop succeeds exactly when there are at least `count` sentinels. It then stops at the `count`-th sentinel, having consumed nothing after it, and returns the non-empty messages before it in arrival order |
| `Aggregation.DrainedStopsAtLastSentinel` | awslogtail.go:75-84 | if the `count`-th sentinel is at position `k - 1`, the drain returns exactly the non-empty messages of the first `k` |
| `Aggregation.DrainedBlocks` | awslogtail.go:75-84 | with fewer sentinels than launched loaders the drain never ends |
| `Aggregation.DrainCollectsEveryLine` | awslogtail.go:63-84 | for any interleaving of the loaders' messages, each ending in one sentinel, draining for one sentinel per loader ends and collects every line of every loader (as a multiset) |
| `Aggregation.Latest` | awslogtail.go:88-90 | the kept lines are the last `min(n, 100)` of the sorted list, a suffix of it |
| `Aggregation.LatestKeepsGreatest` | awslogtail.go:88-90 | the kept lines stay sorted, and every dropped line is at most every kept line |
| `LexOrder.LexLeTotal` | awslogtail.go:86 | any two strings are comparable in Go's string order |
| `LexOrder.LexLeAntisymmetric` | awslogtail.go:86 | two strings each at most the other are equal |
| `LexOrder.LexLeTransitive` | awslogtail.go:86 | Go's string order is transitive |
| `LexOrder.LexLePrefixes` | awslogtail.go:86 | the prefixes of a common length of two ordered strings are ordered the same way |
| `LexOrder.Insert` | awslogtail.go:86 | inserting into a sorted list gives a sorted list with one more occurrence of the element |
| `LexOrder.SortStrings` | awslogtail.go:86 | `sort.Strings` returns the lines in ascending order, as a permutation of its input |
| `LexOrder.SortedUnique` | awslogtail.go:86 | two sorted lists with the same elements are equal, so an unstable sort gives the same result |
| `LexOrder.SortStringsOfPermutation` | awslogtail.go:86 | sorting two permutations of one list gives one result, whatever the arrival order |
| `AwsLogTail.Run` | awslogtail.go:23-94 | launches exactly the selected instances. It fails with the `DescribeInstances` error, or with "No instances" when nothing is selected, before printing anything. Otherwise it prints the newest 100 sorted drained lines, or blocks |
| `AwsLogTail.NoInstancesIffNoneSelected` | awslogtail.go:68-71 | `Run` fails with "No instances" exactly when the filter selects no instance |
| `AwsLogTail.PrintedLinesAreTheNewest` | awslogtail.go:86-94 | once the drain has collected `n` lines, `Run` prints them sorted. It prints `min(n, 100)` of them, a suffix of the sorted drained lines, and no line left out is above a printed one |
| `AwsLogTail.EmissionsCarryAllLines` | awslogtail.go:110-122 | every loader sends a well-formed batch, together they await one sentinel each, and their lines are all lines of all successful fetches |
| `AwsLogTail.AllBatchLines` | awslogtail.go:116-120 | every line any loader contributes is at least as long as the 20-character stamp it starts with |
| `AwsLogTail.PrintsNewestLinesOfAllStreams` | awslogtail.go:63-94 | for every interleaving of the loaders' messages, `Run` prints the greatest 100 of all lines of all successful fetches, ascending. A failed fetch contributes no line and does not stop the others |
| `AwsLogTail.PrintedLinesAscendByTimestamp` | awslogtail.go:86-93 | the printed lines ascend by the text of their 20-character canonical stamp |

## Left out

- The AWS calls `DescribeInstances` and `GetLogEvents`, and the clients that
  make them, are foreign network calls. Their replies are inputs. Only the
  first page of `DescribeInstances` (`MaxResults` 1000) is read by the code,
  and the model takes that page as given.
- Goroutines, channel capacities and blocking are concurrency. The `initial`
  channel is one already interleaved sequence. A drain that would wait
  forever is the `Blocked` outcome.
- The follow loop of `load` (polling with the continuation token, the 5-second
  sleep, the retry without pause after an error) never ends and is not modelled.
  `Load` only reports whether a loader would enter it. The loop in `Run` that
  prints the `follow` channel is left out for the same reason.
- Printing to stdout and the error messages written to stderr are I/O. `Run`
  returns the printed lines instead, and a failed fetch is visible only as a
  batch without lines.
- The internals of `time.Parse`, `time.Format` and `time.Unix`, and the local
  time zone, belong to the Go library. They are parameters of the model.
- The wrap-around of `*e.Timestamp * 1000000` in Go's 64-bit integers
  (awslogtail.go:161) is not written out. An event stamped after about 2262 or
  before 1677 prints a wrapped date. The model's `canonical` may be any function
  of the millisecond value, so it covers that rendering too. Because of the
  wrap, `time.Unix` always lands between 1677 and 2262, and the canonical stamp
  is always exactly 20 characters, as the model's `Renderer` requires.
- Dereferences of nil pointers in the AWS replies (a missing tag key, message
  or state) would panic in Go. The model's records have no nil fields.
- `main.go` and `cmd/main.go` handle flags, credentials, region and exit codes,
  and call a six-argument `Run` that `awslogtail.go` does not define. They are
  not part of this model.
- `Aggregation.DrainCollectsEveryLine` states the collected lines as a
  multiset, because their order is the order of the interleaving. The exact
  order is given by `Aggregation.Drain`.
