// Grouping the targets of a run by instance, and adding up their results
// (internal/applier/target.go, TargetGroupsForDir; internal/applier/applier.go, Result.Merge).

module TargetGroups {
  import opened KeyedRuns

  datatype Target = Target(instance: string, schemaName: string, dir: string)

  function InstanceOf(t: Target): string {
    t.instance
  }

  function Instances(targets: seq<Target>): set<string> {
    set i | 0 <= i < |targets| :: targets[i].instance
  }

  /** One group per instance, each in the order of `targets`; the groups come in the order of a map iteration. */
  ghost predicate Grouped(targets: seq<Target>, groups: seq<seq<Target>>, order: seq<string>) {
    && Lists(order, Instances(targets)) && |groups| == |order|
    && forall i :: 0 <= i < |groups| ==> groups[i] == Of(targets, InstanceOf, order[i])
  }

  method GroupByInstance(targets: seq<Target>) returns (groups: seq<seq<Target>>, ghost order: seq<string>)
    ensures Grouped(targets, groups, order)
  {
    var byInst: map<string, seq<Target>> := map[];
    for n := 0 to |targets|
      invariant byInst.Keys == Instances(targets[..n])
      invariant forall k :: k in byInst ==> byInst[k] == Of(targets[..n], InstanceOf, k)
    {
      var key := targets[n].instance;
      GrowInstances(targets, n);
      assert targets[..n + 1][..n] == targets[..n];
      if key !in byInst {
        NotYetGrouped(targets[..n], key);
      }
      byInst := byInst[key := (if key in byInst then byInst[key] else []) + [targets[n]]];
    }
    assert targets[..|targets|] == targets;
    groups, order := CollectGroups(targets, byInst);
  }

  method CollectGroups(targets: seq<Target>, byInst: map<string, seq<Target>>)
      returns (groups: seq<seq<Target>>, ghost order: seq<string>)
    requires byInst.Keys == Instances(targets)
    requires forall k :: k in byInst ==> byInst[k] == Of(targets, InstanceOf, k)
    ensures Grouped(targets, groups, order)
  {
    hide Of, Instances;
    groups, order := [], [];
    var todo := byInst.Keys;
    while todo != {}
      invariant todo <= byInst.Keys && multiset(order) + multiset(todo) == multiset(byInst.Keys)
      invariant |groups| == |order| && forall i :: 0 <= i < |groups| ==> groups[i] == Of(targets, InstanceOf, order[i])
      decreases |todo|
    {
      var k :| k in todo;
      TookOne(order, k, todo, byInst.Keys);
      groups, order := groups + [byInst[k]], order + [k];
      todo := todo - {k};
    }
  }

  lemma GrowInstances(targets: seq<Target>, n: nat)
    requires n < |targets|
    ensures Instances(targets[..n + 1]) == Instances(targets[..n]) + {targets[n].instance}
  {
    var s := targets[..n + 1];
    assert s == targets[..n] + [targets[n]];
    forall k | k in Instances(targets[..n]) + {targets[n].instance} ensures k in Instances(s) {
      if k in Instances(targets[..n]) {
        var i :| 0 <= i < n && targets[..n][i].instance == k;
        assert s[i].instance == k;
      } else {
        assert s[n].instance == k;
      }
    }
  }

  lemma {:induction false} NotYetGrouped(targets: seq<Target>, k: string)
    requires k !in Instances(targets)
    ensures Of(targets, InstanceOf, k) == []
  {
    if |targets| > 0 {
      assert targets[|targets| - 1].instance in Instances(targets);
      forall x | x in Instances(targets[..|targets| - 1]) ensures x in Instances(targets) {
        var i :| 0 <= i < |targets| - 1 && targets[..|targets| - 1][i].instance == x;
        assert targets[i].instance == x;
      }
      NotYetGrouped(targets[..|targets| - 1], k);
    }
  }

  lemma {:induction false} OfCount(targets: seq<Target>, k: string, t: Target)
    ensures multiset(Of(targets, InstanceOf, k))[t] == if t.instance == k then multiset(targets)[t] else 0
  {
    if |targets| > 0 {
      OfCount(targets[..|targets| - 1], k, t);
      assert targets == targets[..|targets| - 1] + [targets[|targets| - 1]];
    }
  }

  lemma ConcatCount<T>(a: seq<T>, b: seq<T>, t: T)
    ensures multiset(a + b)[t] == multiset(a)[t] + multiset(b)[t]
  {
  }

  lemma {:induction false} JoinCount(targets: seq<Target>, groups: seq<seq<Target>>, order: seq<string>, t: Target)
    requires |groups| == |order| && forall i :: 0 <= i < |groups| ==> groups[i] == Of(targets, InstanceOf, order[i])
    requires forall i, j :: 0 <= i < j < |order| ==> order[i] != order[j]
    ensures multiset(Join(groups))[t] == if t.instance in order then multiset(targets)[t] else 0
  {
    if |groups| > 0 {
      hide Of;
      var last := |groups| - 1;
      JoinCount(targets, groups[..last], order[..last], t);
      OfCount(targets, order[last], t);
      assert t.instance in order <==> t.instance in order[..last] || t.instance == order[last];
      ConcatCount(Join(groups[..last]), groups[last], t);
    }
  }

  /** Every target is in exactly one group, and the targets of an instance share a group. */
  lemma GroupsPartition(targets: seq<Target>, groups: seq<seq<Target>>, order: seq<string>)
    requires Grouped(targets, groups, order)
    ensures multiset(Join(groups)) == multiset(targets)
    ensures forall i, j, a, b ::
            0 <= i < |groups| && 0 <= j < |groups| && 0 <= a < |groups[i]| && 0 <= b < |groups[j]| ==>
              (groups[i][a].instance == groups[j][b].instance <==> i == j)
  {
    hide Of, Join;
    ListsDistinct(order, Instances(targets));
    ListsAll(order, Instances(targets));
    forall t ensures multiset(Join(groups))[t] == multiset(targets)[t] {
      JoinCount(targets, groups, order, t);
      if t in targets {
        var i :| 0 <= i < |targets| && targets[i] == t;
        assert t.instance in Instances(targets);
      }
    }
    forall i | 0 <= i < |groups| ensures forall a :: 0 <= a < |groups[i]| ==> groups[i][a].instance == order[i] {
      GroupInstance(targets, order[i]);
    }
  }

  lemma {:induction false} GroupInstance(targets: seq<Target>, k: string)
    ensures forall a :: 0 <= a < |Of(targets, InstanceOf, k)| ==> Of(targets, InstanceOf, k)[a].instance == k
  {
    if |targets| > 0 {
      GroupInstance(targets[..|targets| - 1], k);
    }
  }

  // ----- results -----

  datatype Totals = Totals(differences: bool, skipCount: nat, unsupportedCount: nat)

  /** applier.Result. */
  class Result {
    var differences: bool
    var skipCount: nat
    var unsupportedCount: nat

    function Value(): Totals
      reads this
    {
      Totals(differences, skipCount, unsupportedCount)
    }

    constructor ()
      ensures Value() == Sum([])
    {
      differences, skipCount, unsupportedCount := false, 0, 0;
    }

    method Merge(other: Totals)
      modifies this
      ensures Value() == Add(old(Value()), other)
    {
      differences := differences || other.differences;
      skipCount := skipCount + other.skipCount;
      unsupportedCount := unsupportedCount + other.unsupportedCount;
    }
  }

  function Add(a: Totals, b: Totals): Totals {
    Totals(a.differences || b.differences, a.skipCount + b.skipCount, a.unsupportedCount + b.unsupportedCount)
  }

  function Sum(results: seq<Totals>): Totals {
    if |results| == 0 then Totals(false, 0, 0) else Add(Sum(results[..|results| - 1]), results[|results| - 1])
  }

  /** The combined result of a run, which starts with the targets that could not be used at all. */
  method MergeAll(skipCount: nat, results: seq<Totals>) returns (sum: Result)
    ensures fresh(sum) && sum.Value() == Add(Totals(false, skipCount, 0), Sum(results))
  {
    sum := new Result();
    sum.skipCount := skipCount;
    for n := 0 to |results|
      invariant fresh(sum) && sum.Value() == Add(Totals(false, skipCount, 0), Sum(results[..n]))
    {
      assert results[..n + 1][..n] == results[..n];
      sum.Merge(results[n]);
    }
    assert results[..|results|] == results;
  }

  lemma {:induction false} SumWithout(results: seq<Totals>, i: nat)
    requires i < |results|
    ensures Sum(results) == Add(Sum(results[..i] + results[i + 1..]), results[i])
  {
    var init, last := results[..|results| - 1], results[|results| - 1];
    if i < |init| {
      SumWithout(init, i);
      var rest := results[..i] + results[i + 1..];
      assert rest[..|rest| - 1] == init[..i] + init[i + 1..] && rest[|rest| - 1] == last;
    } else {
      assert results[..i] + results[i + 1..] == init;
    }
  }

  /** The combined result does not depend on the order in which the targets finish. */
  lemma {:induction false} SumIsOrderFree(a: seq<Totals>, b: seq<Totals>)
    requires multiset(a) == multiset(b)
    ensures Sum(a) == Sum(b)
    decreases |a|
  {
    if |a| == 0 {
      assert |b| == |multiset(b)| == |multiset(a)| == 0;
    } else {
      hide Sum;
      var last := a[|a| - 1];
      var i := Matching(a, b);
      SumIsOrderFree(a[..|a| - 1], b[..i] + b[i + 1..]);
      SumWithout(b, i);
      SumWithout(a, |a| - 1);
      assert a[..|a| - 1] + a[|a|..] == a[..|a| - 1];
    }
  }

  /** The last element of `a` stands somewhere in a rearrangement of `a`; without it, the rests are rearrangements. */
  lemma Matching<T>(a: seq<T>, b: seq<T>) returns (i: nat)
    requires |a| > 0 && multiset(a) == multiset(b)
    ensures i < |b| && b[i] == a[|a| - 1]
    ensures multiset(a[..|a| - 1]) == multiset(b[..i] + b[i + 1..])
  {
    var init, last := a[..|a| - 1], a[|a| - 1];
    assert a == init + [last];
    assert last in multiset(b);
    i :| 0 <= i < |b| && b[i] == last;
    var front, back := b[..i], b[i + 1..];
    assert b == front + [last] + back;
    assert multiset(front + back) == multiset(b) - multiset{last};
    assert multiset(init) == multiset(a) - multiset{last};
  }
}
