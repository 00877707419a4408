/** Planning the removal of nodes from a cluster: data nodes are put into stages so
    that no stage removes two nodes of one group (conf/script/shrinkBusiness.js). */
module Shrink {

  datatype Role = Coord | Catalog | Data | OtherRole

  datatype Node = Node(host: string, svc: string, role: Role, group: string)

  // ----- counting

  function Count(ns: seq<Node>, g: string): nat {
    if ns == [] then 0 else Count(ns[..|ns| - 1], g) + if ns[|ns| - 1].group == g then 1 else 0
  }

  /** The stage of node i: how many nodes of its group come before it. */
  function Rank(ns: seq<Node>, i: nat): nat
    requires i < |ns|
  {
    Count(ns[..i], ns[i].group)
  }

  /** The nodes of stage k, in order. */
  function Stage(ns: seq<Node>, k: nat): seq<Node> {
    if ns == [] then []
    else
      var n := |ns| - 1;
      Stage(ns[..n], k) + if Rank(ns, n) == k then [ns[n]] else []
  }

  /** The largest number of nodes any group has. */
  function Height(ns: seq<Node>): nat {
    if ns == [] then 0
    else
      var n := |ns| - 1;
      if Rank(ns, n) >= Height(ns[..n]) then Rank(ns, n) + 1 else Height(ns[..n])
  }

  lemma {:induction false} CountConcat(a: seq<Node>, b: seq<Node>, g: string)
    ensures Count(a + b, g) == Count(a, g) + Count(b, g)
  {
    if b == [] {
      assert a + b == a;
    } else {
      var n := |b| - 1;
      assert (a + b)[..|a + b| - 1] == a + b[..n];
      CountConcat(a, b[..n], g);
    }
  }

  lemma {:induction false} HeightIsMax(ns: seq<Node>, g: string)
    ensures Count(ns, g) <= Height(ns)
  {
    if ns != [] {
      HeightIsMax(ns[..|ns| - 1], g);
    }
  }

  lemma {:induction false} HeightIsReached(ns: seq<Node>) returns (g: string)
    ensures Count(ns, g) == Height(ns)
  {
    g := "";
    if ns != [] {
      var n := |ns| - 1;
      if Rank(ns, n) >= Height(ns[..n]) {
        HeightIsMax(ns[..n], ns[n].group);
        g := ns[n].group;
      } else {
        g := HeightIsReached(ns[..n]);
        HeightIsMax(ns[..n], ns[n].group);
      }
    }
  }

  // ----- the planner

  /** `groupList`: which groups each stage already removes a node of. */
  ghost predicate Occupied(groupList: seq<seq<string>>, ns: seq<Node>) {
    && |groupList| == Height(ns)
    && forall i, g | 0 <= i < |groupList| :: g in groupList[i] <==> i < Count(ns, g)
  }

  lemma {:induction false} Append(ns: seq<Node>, n: Node)
    ensures var ms := ns + [n];
            && Rank(ms, |ns|) == Count(ns, n.group)
            && (forall g :: Count(ms, g) == Count(ns, g) + if g == n.group then 1 else 0)
            && (forall k :: Stage(ms, k) == Stage(ns, k) + if Count(ns, n.group) == k then [n] else [])
            && Height(ms) == if Count(ns, n.group) >= Height(ns) then Count(ns, n.group) + 1 else Height(ns)
  {
    var ms := ns + [n];
    assert ms[..|ns|] == ns;
  }

  class Planner {
    var groupList: seq<seq<string>>
    var dataTask: seq<seq<Node>>

    constructor ()
      ensures groupList == [] && dataTask == []
    {
      groupList, dataTask := [], [];
    }

    /** First fit: the first stage without a node of the group, or a new one. */
    method GetGroupIndex(ghost ns: seq<Node>, n: Node) returns (newIndex: nat)
      requires Occupied(groupList, ns)
      modifies this`groupList
      ensures newIndex == Count(ns, n.group)
      ensures Occupied(groupList, ns + [n])
    {
      Append(ns, n);
      forall g {
        HeightIsMax(ns, g);
      }
      var index := 0;
      while index < |groupList|
        invariant 0 <= index <= |groupList| && groupList == old(groupList)
        invariant index <= Count(ns, n.group)
      {
        if n.group !in groupList[index] {
          groupList := groupList[index := groupList[index] + [n.group]];
          return index;
        }
        index := index + 1;
      }
      groupList := groupList + [[n.group]];
      newIndex := index;
    }

    /** One data node is planned. */
    method PlanNode(ghost ns: seq<Node>, n: Node)
      requires Occupied(groupList, ns) && Staged(dataTask, ns)
      modifies this
      ensures Occupied(groupList, ns + [n]) && Staged(dataTask, ns + [n])
    {
      Append(ns, n);
      HeightIsMax(ns, n.group);
      var newIndex := GetGroupIndex(ns, n);
      if |dataTask| <= newIndex {
        dataTask := dataTask + [[]];
        EmptyAbove(ns, newIndex);
      }
      dataTask := dataTask[newIndex := dataTask[newIndex] + [n]];
    }

    /** The loop over the data nodes. */
    method PlanData(dataList: seq<Node>)
      requires groupList == [] && dataTask == []
      modifies this
      ensures Staged(dataTask, dataList)
    {
      var i := 0;
      while i < |dataList|
        invariant 0 <= i <= |dataList|
        invariant Occupied(groupList, dataList[..i]) && Staged(dataTask, dataList[..i])
      {
        assert dataList[..i + 1] == dataList[..i] + [dataList[i]];
        PlanNode(dataList[..i], dataList[i]);
        i := i + 1;
      }
      assert dataList[..i] == dataList;
    }

    /** The whole plan: coord and catalog nodes one by one, then the data stages.
        Nodes of any other role are left out. */
    method GeneratePlan(config: seq<Node>) returns (plan: seq<seq<Node>>)
      requires groupList == [] && dataTask == []
      modifies this
      ensures plan == Singles(WithRole(config, Coord)) + Singles(WithRole(config, Catalog)) + dataTask
      ensures Staged(dataTask, WithRole(config, Data))
    {
      var coordTask, catalogTask, dataList := SplitByRole(config);
      PlanData(dataList);
      plan := coordTask + catalogTask + dataTask;
    }
  }

  method SplitByRole(config: seq<Node>)
    returns (coordTask: seq<seq<Node>>, catalogTask: seq<seq<Node>>, dataList: seq<Node>)
    ensures coordTask == Singles(WithRole(config, Coord))
    ensures catalogTask == Singles(WithRole(config, Catalog))
    ensures dataList == WithRole(config, Data)
  {
    coordTask, catalogTask, dataList := [], [], [];
    var i := 0;
    while i < |config|
      invariant 0 <= i <= |config|
      invariant coordTask == Singles(WithRole(config[..i], Coord))
      invariant catalogTask == Singles(WithRole(config[..i], Catalog))
      invariant dataList == WithRole(config[..i], Data)
    {
      var node := config[i];
      assert config[..i + 1] == config[..i] + [node];
      AppendRole(config[..i], node);
      if node.role == Coord {
        coordTask := coordTask + [[node]];
      } else if node.role == Catalog {
        catalogTask := catalogTask + [[node]];
      } else if node.role == Data {
        dataList := dataList + [node];
      }
      i := i + 1;
    }
    assert config[..i] == config;
  }

  lemma {:induction false} AppendRole(ns: seq<Node>, n: Node)
    ensures forall role :: WithRole(ns + [n], role) == WithRole(ns, role) + if n.role == role then [n] else []
    ensures forall role :: Singles(WithRole(ns + [n], role)) ==
              Singles(WithRole(ns, role)) + if n.role == role then [[n]] else []
  {
    assert (ns + [n])[..|ns|] == ns;
    forall role
      ensures Singles(WithRole(ns + [n], role)) == Singles(WithRole(ns, role)) + if n.role == role then [[n]] else []
    {
      var a := WithRole(ns, role);
      assert (a + [n])[..|a|] == a;
      assert a + [] == a && Singles(a) + [] == Singles(a);
    }
  }

  function WithRole(ns: seq<Node>, role: Role): seq<Node> {
    if ns == [] then []
    else WithRole(ns[..|ns| - 1], role) + if ns[|ns| - 1].role == role then [ns[|ns| - 1]] else []
  }

  function Singles(ns: seq<Node>): seq<seq<Node>> {
    if ns == [] then [] else Singles(ns[..|ns| - 1]) + [[ns[|ns| - 1]]]
  }

  /** The data stages are those of first fit. */
  ghost predicate Staged(stages: seq<seq<Node>>, ns: seq<Node>) {
    |stages| == Height(ns) && forall k | 0 <= k < |stages| :: stages[k] == Stage(ns, k)
  }

  lemma {:induction false} EmptyAbove(ns: seq<Node>, k: nat)
    requires k >= Height(ns)
    ensures Stage(ns, k) == []
  {
    if ns != [] {
      EmptyAbove(ns[..|ns| - 1], k);
    }
  }

  // ----- the stages are valid and as few as possible

  function Flatten(stages: seq<seq<Node>>): seq<Node> {
    if stages == [] then [] else Flatten(stages[..|stages| - 1]) + stages[|stages| - 1]
  }

  /** Every node is in exactly one stage and no stage has two nodes of one group. */
  ghost predicate ValidStaging(stages: seq<seq<Node>>, ns: seq<Node>) {
    && multiset(Flatten(stages)) == multiset(ns)
    && forall k, g | 0 <= k < |stages| :: Count(stages[k], g) <= 1
  }

  /** A group has its k-th node, and only that one, in stage k. */
  lemma {:induction false} OnePerStage(ns: seq<Node>, k: nat, g: string)
    ensures Count(Stage(ns, k), g) == if k < Count(ns, g) then 1 else 0
  {
    if ns != [] {
      var n := |ns| - 1;
      OnePerStage(ns[..n], k, g);
      assert ns == ns[..n] + [ns[n]];
      Append(ns[..n], ns[n]);
      CountConcat(Stage(ns[..n], k), if Rank(ns, n) == k then [ns[n]] else [], g);
      assert Count([ns[n]], g) == if ns[n].group == g then 1 else 0 by {
        assert [ns[n]][..0] == [];
      }
    }
  }

  ghost function StagesOf(ns: seq<Node>, h: nat): (stages: seq<seq<Node>>)
    ensures |stages| == h && forall k | 0 <= k < h :: stages[k] == Stage(ns, k)
  {
    seq(h, k requires 0 <= k < h => Stage(ns, k))
  }

  lemma {:induction false} FlattenStages(ns: seq<Node>, h: nat)
    requires h >= Height(ns)
    ensures multiset(Flatten(StagesOf(ns, h))) == multiset(ns)
  {
    if ns == [] {
      FlattenEmpty(StagesOf(ns, h));
    } else {
      var n := |ns| - 1;
      FlattenStages(ns[..n], h);
      HeightIsMax(ns[..n], ns[n].group);
      var a, b := StagesOf(ns[..n], h), StagesOf(ns, h);
      forall i | 0 <= i < h ensures b[i] == a[i] + if i == Rank(ns, n) then [ns[n]] else [] {
        assert b[i] == Stage(ns, i) && a[i] == Stage(ns[..n], i);
      }
      FlattenInsert(a, b, Rank(ns, n), ns[n]);
      assert ns == ns[..n] + [ns[n]];
    }
  }

  lemma {:induction false} FlattenEmpty(stages: seq<seq<Node>>)
    requires forall k | 0 <= k < |stages| :: stages[k] == []
    ensures Flatten(stages) == []
  {
    if stages != [] {
      FlattenEmpty(stages[..|stages| - 1]);
    }
  }

  lemma {:induction false} FlattenInsert(a: seq<seq<Node>>, b: seq<seq<Node>>, k: nat, n: Node)
    requires |a| == |b| && forall i | 0 <= i < |a| :: b[i] == a[i] + if i == k then [n] else []
    ensures multiset(Flatten(b)) == multiset(Flatten(a)) + if k < |a| then multiset{n} else multiset{}
  {
    if a != [] {
      FlattenInsert(a[..|a| - 1], b[..|b| - 1], k, n);
    }
  }

  /** First fit is valid. */
  lemma {:induction false} FirstFitIsValid(stages: seq<seq<Node>>, ns: seq<Node>)
    requires Staged(stages, ns)
    ensures ValidStaging(stages, ns)
  {
    assert stages == StagesOf(ns, Height(ns));
    FlattenStages(ns, Height(ns));
    forall k, g | 0 <= k < |stages| ensures Count(stages[k], g) <= 1 {
      OnePerStage(ns, k, g);
    }
  }

  /** No valid staging has fewer stages. */
  lemma {:induction false} FirstFitIsOptimal(stages: seq<seq<Node>>, other: seq<seq<Node>>, ns: seq<Node>)
    requires Staged(stages, ns) && ValidStaging(other, ns)
    ensures |stages| <= |other|
  {
    var g := HeightIsReached(ns);
    CountOfPermutation(Flatten(other), ns, g);
    CountAtMostStages(other, g);
  }

  lemma {:induction false} CountAtMostStages(stages: seq<seq<Node>>, g: string)
    requires forall k | 0 <= k < |stages| :: Count(stages[k], g) <= 1
    ensures Count(Flatten(stages), g) <= |stages|
  {
    if stages != [] {
      var n := |stages| - 1;
      CountAtMostStages(stages[..n], g);
      CountConcat(Flatten(stages[..n]), stages[n], g);
    }
  }

  lemma {:induction false} WithoutOne(b: seq<Node>, i: nat, g: string)
    requires i < |b|
    ensures multiset(b[..i] + b[i + 1..]) == multiset(b) - multiset{b[i]}
    ensures Count(b[..i] + b[i + 1..], g) == Count(b, g) - if b[i].group == g then 1 else 0
  {
    assert b == b[..i] + [b[i]] + b[i + 1..];
    CountConcat(b[..i], b[i + 1..], g);
    CountConcat(b[..i], [b[i]], g);
    CountConcat(b[..i] + [b[i]], b[i + 1..], g);
    assert [b[i]][..0] == [];
  }

  lemma {:induction false} CountOfPermutation(a: seq<Node>, b: seq<Node>, g: string)
    requires multiset(a) == multiset(b)
    ensures Count(a, g) == Count(b, g)
    decreases |a|
  {
    if a == [] {
      assert |multiset(b)| == 0;
    } else {
      var n := |a| - 1;
      assert a == a[..n] + [a[n]];
      assert a[n] in multiset(b);
      var i :| 0 <= i < |b| && b[i] == a[n];
      WithoutOne(b, i, g);
      CountOfPermutation(a[..n], b[..i] + b[i + 1..], g);
    }
  }
}
