/** Grouping shutdown hooks by priority (internal/shutdown/manager.go). */
module HookGroups {

  datatype Hook = Hook(name: string, priority: int)

  /** The first run of hooks that share the priority of the first hook. */
  function LeadingRun(hooks: seq<Hook>): (n: nat)
    requires hooks != []
    ensures 1 <= n <= |hooks|
  {
    if |hooks| > 1 && hooks[1].priority == hooks[0].priority then 1 + LeadingRun(hooks[1..]) else 1
  }

  function Groups(hooks: seq<Hook>): seq<seq<Hook>>
    decreases |hooks|
  {
    if hooks == [] then [] else [hooks[..LeadingRun(hooks)]] + Groups(hooks[LeadingRun(hooks)..])
  }

  predicate Uniform(group: seq<Hook>) {
    group != [] && forall i :: 0 <= i < |group| ==> group[i].priority == group[0].priority
  }

  predicate Descending(hooks: seq<Hook>) {
    forall i, j :: 0 <= i < j < |hooks| ==> hooks[i].priority >= hooks[j].priority
  }

  function Flatten(groups: seq<seq<Hook>>): seq<Hook> {
    if groups == [] then [] else groups[0] + Flatten(groups[1..])
  }

  lemma {:induction false} RunIsUniform(hooks: seq<Hook>)
    requires hooks != []
    ensures Uniform(hooks[..LeadingRun(hooks)])
    ensures var n := LeadingRun(hooks); n < |hooks| ==> hooks[n].priority != hooks[n - 1].priority
    decreases |hooks|
  {
    if |hooks| > 1 && hooks[1].priority == hooks[0].priority {
      var rest := hooks[1..];
      RunIsUniform(rest);
      assert forall i :: 0 < i < LeadingRun(hooks) ==> hooks[i] == rest[..LeadingRun(rest)][i - 1];
    }
  }

  /** The groups are the hooks in their order, cut into uniform pieces. */
  lemma {:induction false} GroupsPartition(hooks: seq<Hook>)
    ensures Flatten(Groups(hooks)) == hooks
    ensures forall k :: 0 <= k < |Groups(hooks)| ==> Uniform(Groups(hooks)[k])
    decreases |hooks|
  {
    if hooks != [] {
      var n := LeadingRun(hooks);
      RunIsUniform(hooks);
      GroupsPartition(hooks[n..]);
      Flattened(hooks[..n], Groups(hooks[n..]));
      Rejoined(hooks, n);
    }
  }

  lemma Flattened(group: seq<Hook>, groups: seq<seq<Hook>>)
    ensures Flatten([group] + groups) == group + Flatten(groups)
  {
    assert ([group] + groups)[1..] == groups;
  }

  lemma Rejoined(hooks: seq<Hook>, n: nat)
    requires n <= |hooks|
    ensures hooks[..n] + hooks[n..] == hooks
  {
  }

  predicate StrictlyDescending(groups: seq<seq<Hook>>) {
    && (forall k :: 0 <= k < |groups| ==> Uniform(groups[k]))
    && forall k, l :: 0 <= k < l < |groups| ==> groups[k][0].priority > groups[l][0].priority
  }

  lemma {:induction false} GroupHeads(hooks: seq<Hook>, k: nat)
    requires k < |Groups(hooks)|
    ensures Groups(hooks)[k] != [] && Groups(hooks)[k][0] in hooks
    decreases |hooks|
  {
    if k > 0 {
      GroupHeads(hooks[LeadingRun(hooks)..], k - 1);
    }
  }

  /** Over sorted hooks no two groups share a priority: higher ones come first. */
  lemma {:induction false} GroupsDescend(hooks: seq<Hook>)
    requires Descending(hooks)
    ensures StrictlyDescending(Groups(hooks))
    decreases |hooks|
  {
    GroupsPartition(hooks);
    if hooks != [] {
      var n := LeadingRun(hooks);
      var rest := hooks[n..];
      var groups := Groups(hooks);
      RunIsUniform(hooks);
      GroupsDescend(rest);
      assert groups[1..] == Groups(rest);
      forall l | 1 <= l < |groups| ensures groups[0][0].priority > groups[l][0].priority {
        GroupHeads(rest, l - 1);
        assert groups[0][0] == hooks[0] && groups[0][n - 1] == hooks[n - 1];
        var j :| 0 <= j < |rest| && rest[j] == groups[l][0];
        assert rest[j] == hooks[n + j];
      }
      assert forall k :: 1 <= k < |groups| ==> groups[k] == groups[1..][k - 1];
    }
  }

  lemma {:induction false} RunExtends(hooks: seq<Hook>, from: nat, i: nat)
    requires from < i < |hooks|
    requires forall j :: from <= j < i ==> hooks[j].priority == hooks[from].priority
    ensures hooks[i].priority == hooks[from].priority ==> LeadingRun(hooks[from..]) > i - from
    ensures hooks[i].priority != hooks[from].priority ==> LeadingRun(hooks[from..]) == i - from
    decreases i - from
  {
    var s := hooks[from..];
    assert s[1..] == hooks[from + 1..];
    if from + 1 < i {
      RunExtends(hooks, from + 1, i);
    }
  }

  lemma {:induction false} RunToEnd(hooks: seq<Hook>, from: nat)
    requires from < |hooks| && forall j :: from <= j < |hooks| ==> hooks[j].priority == hooks[from].priority
    ensures LeadingRun(hooks[from..]) == |hooks| - from
    decreases |hooks| - from
  {
    assert hooks[from..][1..] == hooks[from + 1..];
    if from + 1 < |hooks| {
      RunToEnd(hooks, from + 1);
    }
  }

  lemma OneMore(hooks: seq<Hook>, from: nat, i: nat)
    requires from <= i < |hooks|
    ensures hooks[from..i] + [hooks[i]] == hooks[from..i + 1]
  {
  }

  method GroupByPriority(hooks: seq<Hook>) returns (groups: seq<seq<Hook>>)
    ensures groups == Groups(hooks)
  {
    if |hooks| == 0 {
      return [];
    }
    groups := [];
    var currentGroup := [hooks[0]];
    var currentPriority := hooks[0].priority;
    ghost var from := 0;
    for i := 1 to |hooks|
      invariant from < i && currentGroup == hooks[from..i] && currentPriority == hooks[from].priority
      invariant forall j :: from <= j < i ==> hooks[j].priority == currentPriority
      invariant groups + Groups(hooks[from..]) == Groups(hooks)
    {
      RunExtends(hooks, from, i);
      if hooks[i].priority == currentPriority {
        OneMore(hooks, from, i);
        currentGroup := currentGroup + [hooks[i]];
      } else {
        NextGroup(hooks, from, i, groups);
        groups := groups + [currentGroup];
        currentGroup := [hooks[i]];
        currentPriority := hooks[i].priority;
        from := i;
      }
    }
    RunToEnd(hooks, from);
    NextGroup(hooks, from, |hooks|, groups);
    groups := groups + [currentGroup];
  }

  lemma NextGroup(hooks: seq<Hook>, from: nat, i: nat, groups: seq<seq<Hook>>)
    requires from < i <= |hooks| && LeadingRun(hooks[from..]) == i - from
    ensures groups + Groups(hooks[from..]) == groups + [hooks[from..i]] + Groups(hooks[i..])
    ensures i == |hooks| ==> groups + Groups(hooks[from..]) == groups + [hooks[from..i]]
  {
    var s := hooks[from..];
    assert s[..i - from] == hooks[from..i] && s[i - from..] == hooks[i..];
    assert groups + ([hooks[from..i]] + Groups(hooks[i..])) == groups + [hooks[from..i]] + Groups(hooks[i..]);
  }
}
