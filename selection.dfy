/**
 * The loops at the top of `Run` that pick, from the `DescribeInstances`
 * reply, the instances whose log streams are read, and launch one loader
 * for each.
 */
module Selection {

  /** Key of the tag that names an instance. */
  const NameKey := "Name"

  /** EC2 instance state code of a terminated instance. */
  const TerminatedCode := 48

  datatype Tag = Tag(key: string, value: string)

  datatype Instance = Instance(id: string, stateCode: int, tags: seq<Tag>)

  datatype Reservation = Reservation(instances: seq<Instance>)

  /** One `go load(...)`: the stream read, and whether its instance is terminated (no follow phase). */
  datatype Launch = Launch(instanceId: string, terminated: bool)

  /** The value of the first tag keyed `"Name"`, or `""` when there is none. */
  function NameOf(tags: seq<Tag>): string
    decreases |tags|
  {
    if tags == [] then ""
    else if tags[0].key == NameKey then tags[0].value
    else NameOf(tags[1..])
  }

  /** NameOf picks the first `"Name"` tag: a later one never overrides it. */
  lemma {:induction false} NameOfIsFirstNameTag(tags: seq<Tag>, k: nat)
    requires k < |tags| && tags[k].key == NameKey
    requires forall j :: 0 <= j < k ==> tags[j].key != NameKey
    ensures NameOf(tags) == tags[k].value
    decreases k
  {
    if k > 0 {
      NameOfIsFirstNameTag(tags[1..], k - 1);
    }
  }

  /** An instance without a `"Name"` tag has the empty name. */
  lemma {:induction false} NameOfUntagged(tags: seq<Tag>)
    requires forall j :: 0 <= j < |tags| ==> tags[j].key != NameKey
    ensures NameOf(tags) == ""
    decreases |tags|
  {
    if tags != [] {
      NameOfUntagged(tags[1..]);
    }
  }

  /** The inner tag loop of `Run`: scans the tags and stops at the first `"Name"`. */
  method InstanceName(tags: seq<Tag>) returns (name: string)
    ensures name == NameOf(tags)
  {
    name := "";
    var k := 0;
    while k < |tags|
      invariant 0 <= k <= |tags|
      invariant name == "" && NameOf(tags[k..]) == NameOf(tags)
    {
      if tags[k].key == NameKey {
        name := tags[k].value;
        break;
      }
      assert tags[k..][1..] == tags[k + 1..];
      k := k + 1;
    }
  }

  /** Some filter entry is a prefix of the name (`strings.HasPrefix(name, s)`). */
  predicate Matches(filter: seq<string>, name: string)
  {
    exists k :: 0 <= k < |filter| && filter[k] <= name
  }

  /** The filter loop of `Run`: stops at the first entry that is a prefix of the name. */
  method MatchesFilter(filter: seq<string>, name: string) returns (matched: bool)
    ensures matched == Matches(filter, name)
  {
    matched := false;
    var k := 0;
    while k < |filter|
      invariant 0 <= k <= |filter|
      invariant !matched
      invariant forall j :: 0 <= j < k ==> !(filter[j] <= name)
    {
      if filter[k] <= name {
        matched := true;
        break;
      }
      k := k + 1;
    }
  }

  /** An empty filter admits every instance; otherwise its name must start with an entry. */
  predicate Selects(filter: seq<string>, i: Instance)
  {
    |filter| == 0 || Matches(filter, NameOf(i.tags))
  }

  function LaunchOf(i: Instance): Launch
  {
    Launch(i.id, i.stateCode == TerminatedCode)
  }

  /** The loads launched for one reservation's instances, in order. */
  function SelectedFrom(filter: seq<string>, instances: seq<Instance>): seq<Launch>
    decreases |instances|
  {
    if instances == [] then []
    else
      var last := instances[|instances| - 1];
      SelectedFrom(filter, instances[..|instances| - 1]) + (if Selects(filter, last) then [LaunchOf(last)] else [])
  }

  /** The loads launched for the whole reply, reservation by reservation. */
  function Selected(filter: seq<string>, reservations: seq<Reservation>): seq<Launch>
    decreases |reservations|
  {
    if reservations == [] then []
    else
      var n := |reservations| - 1;
      Selected(filter, reservations[..n]) + SelectedFrom(filter, reservations[n].instances)
  }

  /** The number of instances in the reply. */
  function InstanceCount(reservations: seq<Reservation>): nat
    decreases |reservations|
  {
    if reservations == [] then 0
    else
      var n := |reservations| - 1;
      InstanceCount(reservations[..n]) + |reservations[n].instances|
  }

  lemma SelectedFromStep(filter: seq<string>, instances: seq<Instance>, k: nat)
    requires k < |instances|
    ensures SelectedFrom(filter, instances[..k + 1])
            == SelectedFrom(filter, instances[..k]) + (if Selects(filter, instances[k]) then [LaunchOf(instances[k])] else [])
  {
    assert instances[..k + 1][..k] == instances[..k];
  }

  lemma SelectedStep(filter: seq<string>, reservations: seq<Reservation>, r: nat)
    requires r < |reservations|
    ensures Selected(filter, reservations[..r + 1]) == Selected(filter, reservations[..r]) + SelectedFrom(filter, reservations[r].instances)
  {
    assert reservations[..r + 1][..r] == reservations[..r];
  }

  /** The filter test of the inner loop of `Run`: skipped when the filter is empty. */
  method PassesFilter(filter: seq<string>, i: Instance) returns (selected: bool)
    ensures selected == Selects(filter, i)
  {
    selected := true;
    if |filter| > 0 {
      var name := InstanceName(i.tags);
      selected := MatchesFilter(filter, name);
    }
  }

  /**
   * The nested loops of `Run` before the drain: one launch per selected
   * instance, in reply order, and `count` equal to the number of launches.
   */
  method Launches(filter: seq<string>, reservations: seq<Reservation>) returns (launched: seq<Launch>, count: nat)
    ensures launched == Selected(filter, reservations)
    ensures count == |launched|
  {
    launched, count := [], 0;
    var r := 0;
    while r < |reservations|
      invariant 0 <= r <= |reservations|
      invariant launched == Selected(filter, reservations[..r])
      invariant count == |launched|
    {
      var instances := reservations[r].instances;
      var k := 0;
      while k < |instances|
        invariant 0 <= k <= |instances|
        invariant launched == Selected(filter, reservations[..r]) + SelectedFrom(filter, instances[..k])
        invariant count == |launched|
      {
        var i := instances[k];
        SelectedFromStep(filter, instances, k);
        var selected := PassesFilter(filter, i);
        if !selected {
          k := k + 1;
          continue;
        }
        launched := launched + [LaunchOf(i)];
        count := count + 1;
        k := k + 1;
      }
      assert instances[..k] == instances;
      SelectedStep(filter, reservations, r);
      r := r + 1;
    }
    assert reservations[..r] == reservations;
  }

  /** `l` is the launch of instance `i`, and the filter selects `i`. */
  predicate Chosen(filter: seq<string>, i: Instance, l: Launch)
  {
    Selects(filter, i) && LaunchOf(i) == l
  }

  /** A selected instance is launched. */
  lemma {:induction false} ChosenIsLaunched(filter: seq<string>, instances: seq<Instance>, k: int, l: Launch)
    requires 0 <= k < |instances| && Chosen(filter, instances[k], l)
    ensures l in SelectedFrom(filter, instances)
    decreases |instances|
  {
    var n := |instances| - 1;
    var front := instances[..n];
    assert SelectedFrom(filter, instances) == SelectedFrom(filter, front) + (if Selects(filter, instances[n]) then [LaunchOf(instances[n])] else []);
    if k < n {
      assert front[k] == instances[k];
      ChosenIsLaunched(filter, front, k, l);
    }
  }

  /** Every launch is the launch of a selected instance. */
  lemma {:induction false} LaunchIsChosen(filter: seq<string>, instances: seq<Instance>, l: Launch) returns (k: int)
    requires l in SelectedFrom(filter, instances)
    ensures 0 <= k < |instances| && Chosen(filter, instances[k], l)
    decreases |instances|
  {
    var n := |instances| - 1;
    var front := instances[..n];
    assert SelectedFrom(filter, instances) == SelectedFrom(filter, front) + (if Selects(filter, instances[n]) then [LaunchOf(instances[n])] else []);
    if l in SelectedFrom(filter, front) {
      k := LaunchIsChosen(filter, front, l);
      assert front[k] == instances[k];
    } else {
      k := n;
    }
  }

  /** Every launch comes from a selected instance, and every selected instance is launched. */
  lemma SelectedFromMembership(filter: seq<string>, instances: seq<Instance>, l: Launch)
    ensures l in SelectedFrom(filter, instances) <==> exists k :: 0 <= k < |instances| && Chosen(filter, instances[k], l)
  {
    if l in SelectedFrom(filter, instances) {
      var k := LaunchIsChosen(filter, instances, l);
    }
    if exists k :: 0 <= k < |instances| && Chosen(filter, instances[k], l) {
      var k :| 0 <= k < |instances| && Chosen(filter, instances[k], l);
      ChosenIsLaunched(filter, instances, k, l);
    }
  }

  /** Some instance of the reply is selected and launched as `l`. */
  predicate SelectedSomewhere(filter: seq<string>, reservations: seq<Reservation>, l: Launch)
  {
    exists r, k :: 0 <= r < |reservations| && 0 <= k < |reservations[r].instances| && Chosen(filter, reservations[r].instances[k], l)
  }

  /** A selected instance of any reservation is launched. */
  lemma {:induction false} ChosenSomewhereIsLaunched(filter: seq<string>, reservations: seq<Reservation>, r: int, k: int, l: Launch)
    requires 0 <= r < |reservations| && 0 <= k < |reservations[r].instances|
    requires Chosen(filter, reservations[r].instances[k], l)
    ensures l in Selected(filter, reservations)
    decreases |reservations|
  {
    var n := |reservations| - 1;
    var front := reservations[..n];
    assert Selected(filter, reservations) == Selected(filter, front) + SelectedFrom(filter, reservations[n].instances);
    if r < n {
      assert front[r] == reservations[r];
      ChosenSomewhereIsLaunched(filter, front, r, k, l);
    } else {
      ChosenIsLaunched(filter, reservations[n].instances, k, l);
    }
  }

  /** Every launch of the reply is the launch of a selected instance of some reservation. */
  lemma {:induction false} LaunchIsChosenSomewhere(filter: seq<string>, reservations: seq<Reservation>, l: Launch) returns (r: int, k: int)
    requires l in Selected(filter, reservations)
    ensures 0 <= r < |reservations| && 0 <= k < |reservations[r].instances|
    ensures Chosen(filter, reservations[r].instances[k], l)
    decreases |reservations|
  {
    var n := |reservations| - 1;
    var front := reservations[..n];
    assert Selected(filter, reservations) == Selected(filter, front) + SelectedFrom(filter, reservations[n].instances);
    if l in Selected(filter, front) {
      r, k := LaunchIsChosenSomewhere(filter, front, l);
      assert front[r] == reservations[r];
    } else {
      r := n;
      k := LaunchIsChosen(filter, reservations[n].instances, l);
    }
  }

  /** The launches are exactly the launches of the instances of the reply that the filter selects. */
  lemma SelectedMembership(filter: seq<string>, reservations: seq<Reservation>, l: Launch)
    ensures l in Selected(filter, reservations) <==> SelectedSomewhere(filter, reservations, l)
  {
    if l in Selected(filter, reservations) {
      var r, k := LaunchIsChosenSomewhere(filter, reservations, l);
    }
    if SelectedSomewhere(filter, reservations, l) {
      var r, k :| 0 <= r < |reservations| && 0 <= k < |reservations[r].instances| && Chosen(filter, reservations[r].instances[k], l);
      ChosenSomewhereIsLaunched(filter, reservations, r, k, l);
    }
  }

  /** With an empty filter every instance of the reply is launched, one launch each. */
  lemma {:induction false} EmptyFilterSelectsAll(reservations: seq<Reservation>)
    ensures |Selected([], reservations)| == InstanceCount(reservations)
    decreases |reservations|
  {
    if reservations != [] {
      var n := |reservations| - 1;
      EmptyFilterSelectsAll(reservations[..n]);
      EmptyFilterSelectsEveryInstance(reservations[n].instances);
    }
  }

  lemma {:induction false} EmptyFilterSelectsEveryInstance(instances: seq<Instance>)
    ensures |SelectedFrom([], instances)| == |instances|
    decreases |instances|
  {
    if instances != [] {
      EmptyFilterSelectsEveryInstance(instances[..|instances| - 1]);
    }
  }

  /** With a non-empty filter, an instance without a name is selected exactly when the filter holds `""`. */
  lemma UnnamedSelectedIffEmptyEntry(filter: seq<string>, i: Instance)
    requires |filter| > 0 && NameOf(i.tags) == ""
    ensures Selects(filter, i) <==> "" in filter
  {
    if "" in filter {
      var k :| 0 <= k < |filter| && filter[k] == "";
      assert filter[k] <= NameOf(i.tags);
    }
  }
}
