/** Library dependencies of a build node: a depth-first search that caches its
    answers on the nodes and reports cycles by an exception
    (site_scons/libdeps.py). */
module LibDeps {

  type Node = nat

  /** The nodes and, in order, the children each lists. */
  datatype Graph = Graph(children: map<Node, seq<Node>>) {
    ghost predicate Closed() {
      forall n, i :: n in children && 0 <= i < |children[n]| ==> children[n][i] in children
    }
  }

  // ----- reachability by one or more edges

  ghost predicate Edge(g: Graph, a: Node, b: Node) {
    a in g.children && b in g.children[a]
  }

  ghost predicate Walk(g: Graph, p: seq<Node>) {
    |p| >= 2 && forall i | 0 <= i < |p| - 1 :: Edge(g, p[i], p[i + 1])
  }

  ghost predicate WalkFromTo(g: Graph, p: seq<Node>, a: Node, b: Node) {
    Walk(g, p) && p[0] == a && p[|p| - 1] == b
  }

  ghost predicate Reaches(g: Graph, a: Node, b: Node) {
    exists p :: WalkFromTo(g, p, a, b)
  }

  ghost function Reach(g: Graph, a: Node): set<Node> {
    set b | b in g.children && Reaches(g, a, b)
  }

  /** No cycle can be reached from n, n included. */
  ghost predicate CycleFree(g: Graph, n: Node) {
    !Reaches(g, n, n) && forall x | Reaches(g, n, x) :: !Reaches(g, x, x)
  }

  lemma {:induction false} EdgeReaches(g: Graph, a: Node, b: Node)
    requires Edge(g, a, b)
    ensures Reaches(g, a, b)
  {
    assert WalkFromTo(g, [a, b], a, b);
  }

  lemma {:induction false} ReachesTrans(g: Graph, a: Node, b: Node, c: Node)
    requires Reaches(g, a, b) && Reaches(g, b, c)
    ensures Reaches(g, a, c)
  {
    var p :| WalkFromTo(g, p, a, b);
    var q :| WalkFromTo(g, q, b, c);
    var r := p + q[1..];
    forall i | 0 <= i < |r| - 1 ensures Edge(g, r[i], r[i + 1]) {
      if i == |p| - 1 {
        assert r[i] == q[0] && r[i + 1] == q[1];
      } else if i >= |p| {
        assert r[i] == q[i - |p| + 1] && r[i + 1] == q[i - |p| + 2];
      }
    }
    assert WalkFromTo(g, r, a, c);
  }

  lemma {:induction false} ReachesFirst(g: Graph, a: Node, c: Node) returns (b: Node)
    requires Reaches(g, a, c)
    ensures Edge(g, a, b) && (b == c || Reaches(g, b, c))
  {
    var p :| WalkFromTo(g, p, a, c);
    b := p[1];
    assert Edge(g, p[0], p[1]);
    if |p| > 2 {
      forall i | 0 <= i < |p[1..]| - 1 ensures Edge(g, p[1..][i], p[1..][i + 1]) {
        assert Edge(g, p[i + 1], p[i + 2]);
      }
      assert WalkFromTo(g, p[1..], b, c);
    }
  }

  lemma {:induction false} CycleFreeChild(g: Graph, a: Node, b: Node)
    requires CycleFree(g, a) && Reaches(g, a, b)
    ensures CycleFree(g, b)
  {
    forall x | Reaches(g, b, x) ensures !Reaches(g, x, x) {
      ReachesTrans(g, a, b, x);
    }
  }

  /** Children and what they reach: the sets the search adds up. */
  ghost function ReachVia(g: Graph, cs: seq<Node>): set<Node> {
    set b | b in g.children && exists i :: 0 <= i < |cs| && (b == cs[i] || Reaches(g, cs[i], b))
  }

  lemma {:induction false} ReachIsReachVia(g: Graph, a: Node)
    requires g.Closed() && a in g.children
    ensures Reach(g, a) == ReachVia(g, g.children[a])
  {
    var cs := g.children[a];
    forall b | b in Reach(g, a) ensures b in ReachVia(g, cs) {
      var c := ReachesFirst(g, a, b);
      var i :| 0 <= i < |cs| && cs[i] == c;
    }
    forall b | b in ReachVia(g, cs) ensures b in Reach(g, a) {
      var i :| 0 <= i < |cs| && (b == cs[i] || Reaches(g, cs[i], b));
      EdgeReaches(g, a, cs[i]);
      if b != cs[i] {
        ReachesTrans(g, a, cs[i], b);
      }
    }
  }

  lemma {:induction false} ReachViaOneMore(g: Graph, cs: seq<Node>, c: Node)
    requires c in g.children
    ensures ReachVia(g, cs + [c]) == ReachVia(g, cs) + {c} + Reach(g, c)
  {
    var more := cs + [c];
    forall b | b in ReachVia(g, cs) + {c} + Reach(g, c) ensures b in ReachVia(g, more) {
      if b in ReachVia(g, cs) {
        var i :| 0 <= i < |cs| && (b == cs[i] || Reaches(g, cs[i], b));
        assert more[i] == cs[i];
      } else {
        assert more[|cs|] == c;
      }
    }
  }

  lemma {:induction false} ReachViaMonotone(g: Graph, cs: seq<Node>, k: nat)
    requires k <= |cs|
    ensures ReachVia(g, cs[..k]) <= ReachVia(g, cs)
  {
    forall b | b in ReachVia(g, cs[..k]) ensures b in ReachVia(g, cs) {
      var i :| 0 <= i < k && (b == cs[..k][i] || Reaches(g, cs[..k][i], b));
      assert cs[i] == cs[..k][i];
    }
  }

  // ----- the search

  /** A query returns a set or raises DependencyCycleError with its nodes. */
  datatype Outcome = Deps(deps: set<Node>) | Cycle(nodes: seq<Node>)

  /** Each node was appended by the caller of the one before it. */
  ghost predicate Unwound(g: Graph, c: seq<Node>) {
    |c| >= 1 && forall i | 0 <= i < |c| - 1 :: Edge(g, c[i + 1], c[i])
  }

  /** The exception leaving the search of n: it was raised at a node that is
      being explored and followed the calls back to n; no node it passed on the way was
      being explored when the search of n began. */
  ghost predicate RaisedFrom(g: Graph, exploring: set<Node>, n: Node, c: seq<Node>) {
    && Unwound(g, c) && c[|c| - 1] == n
    && (if |c| == 1 then n in exploring else c[0] == n || c[0] in exploring)
    && (forall i | 0 < i < |c| :: c[i] !in exploring)
    && forall i | 0 < i < |c| - 1 :: c[i] != c[0]
  }

  lemma {:induction false} AppendCaller(g: Graph, exploring: set<Node>, n: Node, child: Node, c: seq<Node>)
    requires Edge(g, n, child) && n !in exploring
    requires RaisedFrom(g, exploring + {n}, child, c) && (|c| == 1 || c[0] != c[|c| - 1])
    ensures RaisedFrom(g, exploring, n, c + [n])
  {
  }

  /** Correctness of the set gathered from the first k children. */
  ghost predicate Gathered(g: Graph, n: Node, k: nat, deps: set<Node>)
    requires n in g.children && k <= |g.children[n]|
  {
    && deps <= ReachVia(g, g.children[n][..k])
    && (CycleFree(g, n) ==> deps == ReachVia(g, g.children[n][..k]))
  }

  ghost predicate Correct(g: Graph, n: Node, deps: set<Node>) {
    deps <= Reach(g, n) && (CycleFree(g, n) ==> deps == Reach(g, n))
  }

  lemma {:induction false} GatherOne(g: Graph, n: Node, k: nat, deps: set<Node>, sub: set<Node>)
    requires g.Closed() && n in g.children && k < |g.children[n]|
    requires Gathered(g, n, k, deps) && Correct(g, g.children[n][k], sub)
    ensures Gathered(g, n, k + 1, deps + {g.children[n][k]} + sub)
  {
    var cs := g.children[n];
    assert cs[..k + 1] == cs[..k] + [cs[k]];
    ReachViaOneMore(g, cs[..k], cs[k]);
    EdgeReaches(g, n, cs[k]);
    if CycleFree(g, n) {
      CycleFreeChild(g, n, cs[k]);
    }
  }

  lemma {:induction false} GatheredAll(g: Graph, n: Node, deps: set<Node>)
    requires g.Closed() && n in g.children && Gathered(g, n, |g.children[n]|, deps)
    ensures Correct(g, n, deps)
  {
    assert g.children[n][..|g.children[n]|] == g.children[n];
    ReachIsReachVia(g, n);
  }

  /** What was gathered when a child's cycle is swallowed is still reachable. */
  lemma {:induction false} GatheredSome(g: Graph, n: Node, k: nat, deps: set<Node>)
    requires g.Closed() && n in g.children && k < |g.children[n]|
    requires Gathered(g, n, k, deps) && !CycleFree(g, g.children[n][k])
    ensures Correct(g, n, deps + {g.children[n][k]}) && !CycleFree(g, n)
  {
    var cs := g.children[n];
    assert cs[..k + 1] == cs[..k] + [cs[k]];
    ReachViaOneMore(g, cs[..k], cs[k]);
    ReachViaMonotone(g, cs, k + 1);
    ReachIsReachVia(g, n);
    EdgeReaches(g, n, cs[k]);
    if CycleFree(g, n) {
      CycleFreeChild(g, n, cs[k]);
    }
  }

  lemma {:induction false} ChildOnTheWay(g: Graph, exploring: set<Node>, n: Node, child: Node)
    requires Edge(g, n, child) && forall x | x in exploring :: Reaches(g, x, n)
    ensures forall x | x in exploring + {n} :: Reaches(g, x, child)
  {
    EdgeReaches(g, n, child);
    forall x | x in exploring ensures Reaches(g, x, child) {
      ReachesTrans(g, x, n, child);
    }
  }

  // ----- what exactly is cached

  type Memo = map<Node, set<Node>>

  /** The children and what is cached for them. */
  ghost function Sum(cached: Memo, cs: seq<Node>): set<Node>
    requires forall i | 0 <= i < |cs| :: cs[i] in cached
  {
    if cs == [] then {}
    else var n := |cs| - 1; Sum(cached, cs[..n]) + {cs[n]} + cached[cs[n]]
  }

  ghost predicate Extends(cached: Memo, cached': Memo) {
    cached.Keys <= cached'.Keys && forall n | n in cached :: cached'[n] == cached[n]
  }

  lemma {:induction false} SumExtends(cached: Memo, cached': Memo, cs: seq<Node>)
    requires Extends(cached, cached') && forall i | 0 <= i < |cs| :: cs[i] in cached
    ensures Sum(cached', cs) == Sum(cached, cs)
  {
    if cs != [] {
      SumExtends(cached, cached', cs[..|cs| - 1]);
    }
  }

  /** A closed walk leads from a back to a without touching n. */
  ghost predicate CyclesClearOf(g: Graph, a: Node, n: Node) {
    exists p :: WalkFromTo(g, p, a, a) && n !in p
  }

  /** The set computed for n when exactly the nodes in `before` were cached: it adds up
      the children up to the first that is not among them; if there is such a child, it
      lies on a cycle that n is no part of, and is the last thing the set contains. */
  ghost predicate StopsAt(g: Graph, cached: Memo, before: set<Node>, n: Node, deps: set<Node>, k: nat)
    requires n in g.children
  {
    var cs := g.children[n];
    && k <= |cs| && (forall i | 0 <= i < k :: cs[i] in before && cs[i] in cached)
    && deps == Sum(cached, cs[..k]) + (if k < |cs| then {cs[k]} else {})
    && (k < |cs| ==> cs[k] !in before && CyclesClearOf(g, cs[k], n))
  }

  ghost predicate Explained(g: Graph, cached: Memo, before: set<Node>, n: Node, deps: set<Node>)
    requires n in g.children
  {
    exists k: nat :: StopsAt(g, cached, before, n, deps, k)
  }

  /** What was cached before a node determines what is cached for it. */
  lemma {:induction false} EntryIsDetermined(g: Graph, cached: Memo, before: set<Node>, n: Node,
                                             deps: set<Node>, deps': set<Node>)
    requires n in g.children && Explained(g, cached, before, n, deps) && Explained(g, cached, before, n, deps')
    ensures deps == deps'
  {
    var k: nat :| StopsAt(g, cached, before, n, deps, k);
    var k': nat :| StopsAt(g, cached, before, n, deps', k');
    assert k == k';
  }

  lemma {:induction false} ExplainedExtends(g: Graph, cached: Memo, cached': Memo, before: set<Node>, n: Node,
                                            deps: set<Node>)
    requires n in g.children && Explained(g, cached, before, n, deps) && Extends(cached, cached')
    ensures Explained(g, cached', before, n, deps)
  {
    var k: nat :| StopsAt(g, cached, before, n, deps, k);
    SumExtends(cached, cached', g.children[n][..k]);
    assert StopsAt(g, cached', before, n, deps, k);
  }

  lemma {:induction false} UnwoundWalk(g: Graph, c: seq<Node>) returns (p: seq<Node>)
    requires Unwound(g, c) && |c| >= 2
    ensures WalkFromTo(g, p, c[|c| - 1], c[0]) && forall x | x in p :: x in c
  {
    p := seq(|c|, i requires 0 <= i < |c| => c[|c| - 1 - i]);
    forall i | 0 <= i < |p| - 1 ensures Edge(g, p[i], p[i + 1]) {
      assert Edge(g, c[|c| - 2 - i + 1], c[|c| - 2 - i]);
    }
  }

  /** For each cached node, the nodes cached before it. */
  type Order = map<Node, set<Node>>

  /** The order in which nodes were cached is a total one. */
  ghost predicate InOrder(seen: Order) {
    && (forall n | n in seen :: n !in seen[n] && seen[n] <= seen.Keys)
    && (forall m, n | m in seen && n in seen && m != n :: m in seen[n] <==> n !in seen[m])
    && (forall m, n | n in seen && m in seen[n] && m in seen :: seen[m] <= seen[n])
  }

  lemma {:induction false} OrderExtends(seen: Order, n: Node)
    requires InOrder(seen) && n !in seen
    ensures InOrder(seen[n := seen.Keys])
  {
  }

  /** What holds of a set computed for n. */
  ghost predicate Computed(g: Graph, cached: Memo, before: set<Node>, n: Node, deps: set<Node>) {
    n in g.children && Correct(g, n, deps) && Explained(g, cached, before, n, deps)
  }

  ghost predicate CacheOk(g: Graph, cached: Memo, seen: Order) {
    && seen.Keys == cached.Keys && InOrder(seen)
    && forall n {:trigger Computed(g, cached, seen[n], n, cached[n])} | n in cached ::
         Computed(g, cached, seen[n], n, cached[n])
  }

  lemma {:induction false} CacheExtends(g: Graph, cached: Memo, seen: Order, n: Node, deps: set<Node>)
    requires n !in cached && CacheOk(g, cached, seen) && Computed(g, cached, cached.Keys, n, deps)
    ensures Extends(cached, cached[n := deps]) && CacheOk(g, cached[n := deps], seen[n := cached.Keys])
  {
    var cached', seen' := cached[n := deps], seen[n := cached.Keys];
    OrderExtends(seen, n);
    forall m | m in cached' ensures Computed(g, cached', seen'[m], m, cached'[m]) {
      assert Computed(g, cached, seen'[m], m, cached'[m]);
      ExplainedExtends(g, cached, cached', seen'[m], m, cached'[m]);
    }
  }

  /** The set gathered from the first k children. */
  ghost predicate Progress(g: Graph, cached: Memo, n: Node, k: nat, deps: set<Node>) {
    && n in g.children && k <= |g.children[n]| && Gathered(g, n, k, deps)
    && (forall i | 0 <= i < k :: g.children[n][i] in cached)
    && deps == Sum(cached, g.children[n][..k])
  }

  lemma {:induction false} ProgressStep(g: Graph, cached: Memo, cached': Memo, n: Node, k: nat, deps: set<Node>)
    requires g.Closed() && Progress(g, cached, n, k, deps) && Extends(cached, cached')
    requires k < |g.children[n]| && g.children[n][k] in cached'
    requires Correct(g, g.children[n][k], cached'[g.children[n][k]])
    ensures Progress(g, cached', n, k + 1, deps + {g.children[n][k]} + cached'[g.children[n][k]])
  {
    var cs := g.children[n];
    SumExtends(cached, cached', cs[..k]);
    GatherOne(g, n, k, deps, cached'[cs[k]]);
    assert cs[..k + 1][..k] == cs[..k];
  }

  lemma {:induction false} ProgressDone(g: Graph, cached: Memo, n: Node, deps: set<Node>)
    requires g.Closed() && n in g.children && Progress(g, cached, n, |g.children[n]|, deps)
    ensures Computed(g, cached, cached.Keys, n, deps)
  {
    GatheredAll(g, n, deps);
    assert StopsAt(g, cached, cached.Keys, n, deps, |g.children[n]|);
  }

  /** A swallowed exception has come full circle at the child it left. */
  lemma {:induction false} ProgressStops(g: Graph, cached: Memo, cached': Memo, n: Node, k: nat,
                                         deps: set<Node>, c: seq<Node>)
    requires g.Closed() && Progress(g, cached, n, k, deps) && Extends(cached, cached')
    requires k < |g.children[n]| && !CycleFree(g, g.children[n][k])
    requires Unwound(g, c) && |c| >= 2 && c[0] == c[|c| - 1] == g.children[n][k]
    requires g.children[n][k] !in cached' && n !in c
    ensures Computed(g, cached', cached'.Keys, n, deps + {g.children[n][k]})
  {
    SumExtends(cached, cached', g.children[n][..k]);
    GatheredSome(g, n, k, deps);
    var p := UnwoundWalk(g, c);
    assert CyclesClearOf(g, g.children[n][k], n);
    assert StopsAt(g, cached', cached'.Keys, n, deps + {g.children[n][k]}, k);
  }

  /** The exception handler: an unfinished cycle gains the node and is raised again, a
      finished one is dropped and what was gathered is returned. */
  function Handle(nodes: seq<Node>, n: Node, deps: set<Node>): Outcome
    requires nodes != []
  {
    if |nodes| == 1 || nodes[0] != nodes[|nodes| - 1] then Cycle(nodes + [n]) else Deps(deps)
  }

  lemma {:induction false} HandlingIsRight(g: Graph, cached: Memo, cached': Memo, others: set<Node>, n: Node,
                                           k: nat, deps: set<Node>, c: seq<Node>)
    requires g.Closed() && Progress(g, cached, n, k, deps) && Extends(cached, cached') && n !in others
    requires k < |g.children[n]| && !CycleFree(g, g.children[n][k])
    requires RaisedFrom(g, others + {n}, g.children[n][k], c) && g.children[n][k] !in cached'
    ensures var r := Handle(c, n, deps + {g.children[n][k]});
            if r.Cycle? then RaisedFrom(g, others, n, r.nodes) && !CycleFree(g, n)
            else Computed(g, cached', cached'.Keys, n, r.deps)
  {
    GatheredSome(g, n, k, deps);
    if |c| == 1 || c[0] != c[|c| - 1] {
      AppendCaller(g, others, n, g.children[n][k], c);
    } else {
      assert n !in c by {
        assert c[0] == c[|c| - 1] && forall i | 0 < i < |c| :: c[i] !in others + {n};
      }
      ProgressStops(g, cached, cached', n, k, deps, c);
    }
  }

  class Search {
    const g: Graph
    var cached: Memo
    var exploring: set<Node>
    ghost var seen: Order

    /** Cached answers never exceed reachability and are complete for nodes that
        reach no cycle; each is what the answers cached before it make it, cut short
        where a child on a cycle had none; a node being explored has no cached
        answer. */
    ghost predicate Valid()
      reads this
    {
      && g.Closed()
      && exploring <= g.children.Keys
      && cached.Keys <= g.children.Keys
      && exploring !! cached.Keys
      && CacheOk(g, cached, seen)
    }

    constructor (graph: Graph)
      requires graph.Closed()
      ensures Valid() && g == graph && exploring == {} && cached == map[]
    {
      g, cached, exploring, seen := graph, map[], {}, map[];
    }

    /** Everything being explored is on the way to n. */
    ghost predicate OnTheWay(n: Node)
      reads this
    {
      forall x | x in exploring :: Reaches(g, x, n)
    }

    method GetLibdeps(n: Node) returns (r: Outcome)
      requires Valid() && n in g.children && OnTheWay(n)
      modifies this
      ensures Valid() && exploring == old(exploring)
      ensures Extends(old(cached), cached)
      ensures r.Deps? ==> Correct(g, n, r.deps) && n in cached && cached[n] == r.deps
      ensures r.Cycle? ==> RaisedFrom(g, exploring, n, r.nodes) && !CycleFree(g, n) && n !in cached
      decreases |g.children.Keys - exploring|, 1
    {
      if n !in cached {
        r := ComputeLibdeps(n);
        if r.Cycle? {
          return;
        }
        CacheExtends(g, cached, seen, n, r.deps);
        cached, seen := cached[n := r.deps], seen[n := cached.Keys];
      }
      assert Computed(g, cached, seen[n], n, cached[n]);
      r := Deps(cached[n]);
    }

    method ComputeLibdeps(n: Node) returns (r: Outcome)
      requires Valid() && n in g.children && n !in cached && OnTheWay(n)
      modifies this
      ensures Valid() && exploring == old(exploring) && n !in cached
      ensures Extends(old(cached), cached)
      ensures r.Deps? ==> Computed(g, cached, cached.Keys, n, r.deps) && n !in exploring
      ensures r.Cycle? ==> RaisedFrom(g, exploring, n, r.nodes) && !CycleFree(g, n)
      decreases |g.children.Keys - exploring|, 0
    {
      if n in exploring {
        return Cycle([n]);
      }
      exploring := exploring + {n};
      assert g.children.Keys - exploring == g.children.Keys - old(exploring) - {n};
      r := ExploreChildren(n, old(exploring));
      exploring := exploring - {n};
      assert exploring == old(exploring);
    }

    /** The loop over the children, while n is marked. */
    method ExploreChildren(n: Node, ghost others: set<Node>) returns (r: Outcome)
      requires Valid() && n in g.children && n !in cached && n !in others && exploring == others + {n}
      requires forall x | x in others :: Reaches(g, x, n)
      modifies this
      ensures Valid() && exploring == old(exploring) && n !in cached && Extends(old(cached), cached)
      ensures r.Deps? ==> Computed(g, cached, cached.Keys, n, r.deps)
      ensures r.Cycle? ==> RaisedFrom(g, others, n, r.nodes) && !CycleFree(g, n)
      decreases |g.children.Keys - exploring|, 3
    {
      r := Deps({});
      var i := 0;
      while i < |g.children[n]|
        invariant 0 <= i <= |g.children[n]| && Valid() && exploring == old(exploring) && n !in cached
        invariant Extends(old(cached), cached) && r.Deps? && Progress(g, cached, n, i, r.deps)
      {
        var stop;
        stop, r := ExploreChild(n, i, r.deps, others);
        if stop {
          return;
        }
        i := i + 1;
      }
      ProgressDone(g, cached, n, r.deps);
    }

    /** One turn of the loop, with the handler around it. */
    method ExploreChild(n: Node, i: nat, deps: set<Node>, ghost others: set<Node>) returns (stop: bool, r: Outcome)
      requires Valid() && n in g.children && n !in cached && n !in others && exploring == others + {n}
      requires forall x | x in others :: Reaches(g, x, n)
      requires i < |g.children[n]| && Progress(g, cached, n, i, deps)
      modifies this
      ensures Valid() && exploring == old(exploring) && n !in cached && Extends(old(cached), cached)
      ensures !stop ==> r.Deps? && Progress(g, cached, n, i + 1, r.deps)
      ensures stop && r.Deps? ==> Computed(g, cached, cached.Keys, n, r.deps)
      ensures stop && r.Cycle? ==> RaisedFrom(g, others, n, r.nodes) && !CycleFree(g, n)
      decreases |g.children.Keys - exploring|, 2
    {
      var child := g.children[n][i];
      ChildOnTheWay(g, others, n, child);
      ghost var before := cached;
      var sub := GetLibdeps(child);
      if sub.Cycle? {
        HandlingIsRight(g, before, cached, others, n, i, deps, sub.nodes);
        return true, Handle(sub.nodes, n, deps + {child});
      }
      ProgressStep(g, before, cached, n, i, deps);
      return false, Deps(deps + {child} + sub.deps);
    }

    /** A query from outside: no node is being explored before or after it. */
    method Query(n: Node) returns (r: Outcome)
      requires Valid() && n in g.children && exploring == {}
      modifies this
      ensures Valid() && exploring == {}
      ensures CycleFree(g, n) ==> r == Deps(Reach(g, n))
      ensures r.Deps? ==> r.deps <= Reach(g, n) && n in cached && cached[n] == r.deps
      ensures r.Cycle? ==> GenuineCycle(g, n, r.nodes)
      ensures !Reaches(g, n, n) ==> r.Deps?
      ensures OnLoneCycle(g, n) ==> r.Cycle?
      ensures Extends(old(cached), cached)
    {
      r := GetLibdeps(n);
      if r.Cycle? {
        GenuineCycleReachesItself(g, n, r.nodes);
      } else if OnLoneCycle(g, n) {
        LoneCycleIsNeverCached(g, cached, seen, n);
      }
    }

    /** Any history of queries: every answer is right whatever was asked before,
        and whichever queries ended in an exception. */
    method Queries(ns: seq<Node>) returns (rs: seq<Outcome>)
      requires Valid() && exploring == {} && forall i | 0 <= i < |ns| :: ns[i] in g.children
      modifies this
      ensures Valid() && exploring == {} && |rs| == |ns|
      ensures forall i | 0 <= i < |ns| :: Answers(g, cached, ns[i], rs[i])
    {
      rs := [];
      while |rs| < |ns|
        invariant Valid() && exploring == {} && |rs| <= |ns|
        invariant forall i | 0 <= i < |rs| :: Answers(g, cached, ns[i], rs[i])
      {
        var r := Query(ns[|rs|]);
        rs := rs + [r];
      }
    }
  }

  /** A closed walk through n, listed backwards, that meets n only at its ends. */
  ghost predicate GenuineCycle(g: Graph, n: Node, c: seq<Node>) {
    && |c| >= 2 && c[0] == n && c[|c| - 1] == n
    && Unwound(g, c)
    && forall i | 0 < i < |c| - 1 :: c[i] != n
  }

  ghost predicate Answers(g: Graph, cached: Memo, n: Node, r: Outcome) {
    match r
    case Deps(deps) => Correct(g, n, deps) && n in cached && cached[n] == deps && !OnLoneCycle(g, n)
    case Cycle(c) => GenuineCycle(g, n, c) && Reaches(g, n, n)
  }

  /** The nodes of the exception really are a cycle through the queried node. */
  lemma {:induction false} GenuineCycleReachesItself(g: Graph, n: Node, c: seq<Node>)
    requires GenuineCycle(g, n, c)
    ensures Reaches(g, n, n) && !CycleFree(g, n)
  {
    var p := UnwoundWalk(g, c);
  }

  // ----- cycles that are reported

  /** A closed walk through n no node of which lists a node that lies on a cycle clear of
      it: every cycle met from it leads back through it. */
  ghost predicate LoneCycle(g: Graph, p: seq<Node>, n: Node) {
    && WalkFromTo(g, p, n, n)
    && forall m, x | m in p && Edge(g, m, x) :: !CyclesClearOf(g, x, m)
  }

  ghost predicate OnLoneCycle(g: Graph, n: Node) {
    exists p :: LoneCycle(g, p, n)
  }

  /** Of the nodes of p that are cached, one that was cached before the others. */
  lemma {:induction false} Earliest(p: seq<Node>, seen: Order, m: Node) returns (e: Node)
    requires InOrder(seen) && m in p && m in seen
    ensures e in p && e in seen && forall x | x in p :: x !in seen[e]
    decreases |seen[m]|
  {
    if x :| x in p && x in seen[m] {
      assert seen[x] < seen[m];
      Smaller(seen[x], seen[m]);
      e := Earliest(p, seen, x);
    } else {
      e := m;
    }
  }

  lemma {:induction false} Smaller(a: set<Node>, b: set<Node>)
    requires a < b
    ensures |a| < |b|
  {
    var x :| x in b && x !in a;
    assert |b| == |a| + |b - a| by {
      assert b == a + (b - a);
    }
  }

  lemma {:induction false} NextOnCycle(g: Graph, p: seq<Node>, n: Node, m: Node) returns (x: Node)
    requires WalkFromTo(g, p, n, n) && m in p
    ensures x in p && Edge(g, m, x)
  {
    var i :| 0 <= i < |p| && p[i] == m;
    var j := if i < |p| - 1 then i else 0;
    assert Edge(g, p[j], p[j + 1]);
    x := p[j + 1];
  }

  /** The first node of a cycle to be cached was cut short at a node on another cycle, so
      a lone cycle is never cached and every query on it raises, whatever was asked
      before. */
  lemma {:induction false} LoneCycleIsNeverCached(g: Graph, cached: Memo, seen: Order, n: Node)
    requires CacheOk(g, cached, seen) && OnLoneCycle(g, n)
    ensures n !in cached
  {
    if n in cached {
      var p :| LoneCycle(g, p, n);
      assert n == p[0];
      var m := Earliest(p, seen, n);
      var x := NextOnCycle(g, p, n, m);
      assert Computed(g, cached, seen[m], m, cached[m]);
      var k: nat :| StopsAt(g, cached, seen[m], m, cached[m], k);
      var cs := g.children[m];
      var i :| 0 <= i < |cs| && cs[i] == x;
      assert k <= i;
      assert Edge(g, m, cs[k]);
      assert false;
    }
  }

  /** 0 and 1 list each other. */
  const PAIR := Graph(map[0 := [1], 1 := [0]])

  lemma {:induction false} PairFacts()
    ensures PAIR.Closed() && OnLoneCycle(PAIR, 0)
  {
    var p := [0, 1, 0];
    assert PAIR.children[0][0] == 1 && PAIR.children[1][0] == 0;
    assert WalkFromTo(PAIR, p, 0, 0);
    forall m, x | m in p && Edge(PAIR, m, x) ensures !CyclesClearOf(PAIR, x, m) {
      forall q | WalkFromTo(PAIR, q, x, x) ensures m in q {
        assert Edge(PAIR, q[0], q[1]);
      }
    }
    assert LoneCycle(PAIR, p, 0);
  }

  /** On that graph the search of 0 raises with the nodes 0, 1, 0, whatever was asked
      before. */
  method PairIsReported(history: seq<Node>) returns (r: Outcome)
    requires forall i | 0 <= i < |history| :: history[i] in PAIR.children
    ensures r == Cycle([0, 1, 0])
  {
    PairFacts();
    var search := new Search(PAIR);
    var _ := search.Queries(history);
    r := search.Query(0);
    ghost var c := r.nodes;
    assert Edge(PAIR, c[1], c[0]);
    assert |c| > 2 ==> Edge(PAIR, c[2], c[1]);
    assert c == [0, 1, 0];
  }

  // ----- a node that is lost

  /** 0 lists 1 and 2, and 1 lists itself. */
  const LOOP := Graph(map[0 := [1, 2], 1 := [1], 2 := []])

  lemma {:induction false} LoopFacts()
    ensures LOOP.Closed() && 2 in Reach(LOOP, 0) && !Reaches(LOOP, 0, 0)
  {
    assert LOOP.children[0][1] == 2;
    EdgeReaches(LOOP, 0, 2);
    assert 0 !in LOOP.children[0] && 0 !in LOOP.children[1] && 0 !in LOOP.children[2];
    forall p: seq<Node> ensures !WalkFromTo(LOOP, p, 0, 0) {
      if Walk(LOOP, p) {
        assert Edge(LOOP, p[|p| - 2], p[|p| - 1]);
      }
    }
  }

  /** A node that lists only itself is never cached, whatever was asked before. */
  lemma {:induction false} SelfLoopIsNeverCached(cached: Memo, seen: Order)
    requires CacheOk(LOOP, cached, seen)
    ensures 1 !in cached
  {
    assert LOOP.children[1][0] == 1;
    forall before: set<Node>, deps: set<Node>, k: nat | 1 !in before
      ensures !StopsAt(LOOP, cached, before, 1, deps, k)
    {
    }
    assert 1 in cached ==> !Computed(LOOP, cached, seen[1], 1, cached[1]);
  }

  /** So whatever was asked before, the answer for 0 ends at 1, and 2, which no cycle
      touches, is missing. */
  lemma {:induction false} NodeIsLost(cached: Memo, seen: Order)
    requires CacheOk(LOOP, cached, seen) && 0 in cached
    ensures cached[0] == {1} && 2 in Reach(LOOP, 0) - cached[0]
  {
    LoopFacts();
    SelfLoopIsNeverCached(cached, seen);
    assert Computed(LOOP, cached, seen[0], 0, cached[0]);
    var k: nat :| StopsAt(LOOP, cached, seen[0], 0, cached[0], k);
    var cs := LOOP.children[0];
    assert cs[0] == 1 && cs[..0] == [];
    assert k == 0;
  }

  /** The search on that graph. */
  method SwallowedCycleLosesNode(history: seq<Node>) returns (r: Outcome)
    requires forall i | 0 <= i < |history| :: history[i] in LOOP.children
    ensures r == Deps({1}) && 2 in Reach(LOOP, 0)
  {
    LoopFacts();
    var search := new Search(LOOP);
    var _ := search.Queries(history);
    r := search.Query(0);
    NodeIsLost(search.cached, search.seen);
  }
}
