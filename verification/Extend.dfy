/** Extending a cluster and rolling the extension back: nodes are created with the
    identity of the extension in their configuration, a restore step takes it out again,
    and rollback removes what still carries it (conf/script/extendSequoiaDB.js). */
module Extend {
  import opened Options

  datatype Id = Id(host: string, svc: string)

  /** The replica group of a node; coord and catalog nodes have one group each. */
  datatype Group = CoordGroup | CatalogGroup | DataGroup(name: string)

  /** `tag` is the extension's identity in the node's configuration file. */
  datatype Info = Info(group: Group, tag: Option<nat>)

  /** One node of the extension, as in its configuration and result lists. */
  datatype Entry = Entry(id: Id, group: Group)

  /** The cluster: its nodes, and the data groups that exist. */
  datatype Cluster = Cluster(nodes: map<Id, Info>, groups: set<Group>)

  function Members(s: Cluster, g: Group): set<Id> {
    set i | i in s.nodes && s.nodes[i].group == g
  }

  ghost predicate GroupsExist(s: Cluster) {
    forall i | i in s.nodes :: s.nodes[i].group.DataGroup? ==> s.nodes[i].group in s.groups
  }

  predicate Tagged(s: Cluster, i: Id, task: nat) {
    i in s.nodes && s.nodes[i].tag == Some(task)
  }

  // ----- the steps of an extension, each of which the servers may refuse

  datatype Step =
    | Create(e: Entry, groupOk: bool, nodeOk: bool)
    | Start(e: Entry)
    | Restore(e: Entry, ok: bool)

  /** `InstallNode`: a missing data group is created first and stays even when the
      node is then refused; a host and service already in use are refused. */
  function Install(s: Cluster, e: Entry, groupOk: bool, nodeOk: bool, task: nat): Cluster {
    if !groupOk then s
    else
      var s' := if e.group.DataGroup? then s.(groups := s.groups + {e.group}) else s;
      if nodeOk && e.id !in s.nodes then s'.(nodes := s.nodes[e.id := Info(e.group, Some(task))]) else s'
  }

  /** `RestoreNodeConfig`. */
  function RestoreConfig(s: Cluster, e: Entry, ok: bool, task: nat): Cluster {
    if ok && Tagged(s, e.id, task) then s.(nodes := s.nodes[e.id := s.nodes[e.id].(tag := None)]) else s
  }

  function Apply(s: Cluster, step: Step, task: nat): Cluster {
    match step
    case Create(e, groupOk, nodeOk) => Install(s, e, groupOk, nodeOk, task)
    case Start(_) => s
    case Restore(e, ok) => RestoreConfig(s, e, ok, task)
  }

  function ApplyAll(s: Cluster, steps: seq<Step>, task: nat): Cluster {
    if steps == [] then s else Apply(ApplyAll(s, steps[..|steps| - 1], task), steps[|steps| - 1], task)
  }

  // ----- rollback

  /** What the servers answer in one attempt to remove a node: whether its configuration
      can be read, whether its group can be looked up, and whether the removal is carried
      out.  A node that is listed twice is attempted twice. */
  datatype Answer = Answer(readable: bool, found: bool, removable: bool)

  const YES := Answer(true, true, true)

  /** `_removeNode`: only a node whose configuration can be read and carries the tag
      is touched; the last node of a data group goes with its group, the last node of
      the coord or catalog group is not removed at all. */
  function RemoveNode(s: Cluster, e: Entry, a: Answer, task: nat): Cluster {
    if a != YES || !Tagged(s, e.id, task) then s
    else if e.group.DataGroup? && e.group !in s.groups then s
    else if |Members(s, e.group)| > 1 then
      if e.id in Members(s, e.group) then s.(nodes := s.nodes - {e.id}) else s
    else if e.group.DataGroup? then
      s.(nodes := s.nodes - Members(s, e.group), groups := s.groups - {e.group})
    else s
  }

  /** `_removeNode` asks the servers to remove a node or a group. */
  predicate Attempts(s: Cluster, e: Entry) {
    if e.group.DataGroup? then e.group in s.groups else |Members(s, e.group)| > 1
  }

  /** Whether `_removeNode` returns rather than throws: the node is not its to remove, or
      the group is looked up and what is asked of the servers, if anything, is done. */
  predicate Returns(s: Cluster, e: Entry, a: Answer, task: nat) {
    !a.readable || !Tagged(s, e.id, task) || (a.found && (a.removable || !Attempts(s, e)))
  }

  /** One answer for each entry. */
  function Rollback(s: Cluster, es: seq<Entry>, an: seq<Answer>, task: nat): Cluster
    requires |an| == |es|
  {
    if es == [] then s
    else
      var n := |es| - 1;
      RemoveNode(Rollback(s, es[..n], an[..n], task), es[n], an[n], task)
  }

  /** The status recorded for each entry: finished, or failed. */
  function Statuses(s: Cluster, es: seq<Entry>, an: seq<Answer>, task: nat): (r: seq<bool>)
    requires |an| == |es|
    ensures |r| == |es|
  {
    if es == [] then []
    else
      var n := |es| - 1;
      Statuses(s, es[..n], an[..n], task) + [Returns(Rollback(s, es[..n], an[..n], task), es[n], an[n], task)]
  }

  // ----- what holds during an extension

  ghost predicate Lists(es: seq<Entry>, i: Id, g: Group) {
    exists k :: 0 <= k < |es| && es[k] == Entry(i, g)
  }

  /** A node outside the extension in the coord and in the catalog group. */
  ghost predicate Anchored(s: Cluster, task: nat) {
    && (exists i :: i in Members(s, CoordGroup) && !Tagged(s, i, task))
    && (exists i :: i in Members(s, CatalogGroup) && !Tagged(s, i, task))
  }

  /** Tagged nodes come from the extension's entries, and stand in the group of the entry. */
  ghost predicate TaskInv(s: Cluster, es: seq<Entry>, task: nat) {
    && GroupsExist(s) && Anchored(s, task)
    && forall i | Tagged(s, i, task) :: Lists(es, i, s.nodes[i].group)
  }

  ghost predicate StepsOf(steps: seq<Step>, es: seq<Entry>) {
    forall k | 0 <= k < |steps| :: Lists(es, steps[k].e.id, steps[k].e.group)
  }

  lemma {:induction false} TaskKeepsInv(s: Cluster, steps: seq<Step>, es: seq<Entry>, task: nat)
    requires TaskInv(s, es, task) && StepsOf(steps, es)
    ensures TaskInv(ApplyAll(s, steps, task), es, task)
  {
    if steps != [] {
      var n := |steps| - 1;
      TaskKeepsInv(s, steps[..n], es, task);
      StepKeepsInv(ApplyAll(s, steps[..n], task), steps[n], es, task);
    }
  }

  lemma {:induction false} StepKeepsInv(s: Cluster, step: Step, es: seq<Entry>, task: nat)
    requires TaskInv(s, es, task) && Lists(es, step.e.id, step.e.group)
    ensures TaskInv(Apply(s, step, task), es, task)
  {
    var s' := Apply(s, step, task);
    var c :| c in Members(s, CoordGroup) && !Tagged(s, c, task);
    assert c in Members(s', CoordGroup) && !Tagged(s', c, task);
    var d :| d in Members(s, CatalogGroup) && !Tagged(s, d, task);
    assert d in Members(s', CatalogGroup) && !Tagged(s', d, task);
    forall i | Tagged(s', i, task) ensures Lists(es, i, s'.nodes[i].group) {
      if Tagged(s, i, task) {
        assert Lists(es, i, s.nodes[i].group);
      }
    }
  }

  // ----- what rollback removes

  /** The tagged nodes that some entry lists under their own group. */
  ghost function Own(s: Cluster, es: seq<Entry>, task: nat): set<Id> {
    set i | i in s.nodes && Tagged(s, i, task) && Lists(es, i, s.nodes[i].group)
  }

  /** Some entry lists the node under that group and its attempt was answered yes. */
  ghost predicate Granted(es: seq<Entry>, an: seq<Answer>, i: Id, g: Group)
    requires |an| == |es|
  {
    exists k :: 0 <= k < |es| && es[k] == Entry(i, g) && an[k] == YES
  }

  /** The tagged nodes whose removal under their own group was granted. */
  ghost function Removed(s: Cluster, es: seq<Entry>, an: seq<Answer>, task: nat): set<Id>
    requires |an| == |es|
  {
    set i | i in s.nodes && Tagged(s, i, task) && Granted(es, an, i, s.nodes[i].group)
  }

  /** Entry k names a node of the extension under a group that is not its own; and that
      group is a data group which, when the nodes named so far are gone, may be down to
      its last node.  Removing the group's last node then deletes a node that is not the
      extension's, or the group. */
  ghost predicate Strikes(s: Cluster, es: seq<Entry>, k: nat, task: nat)
    requires k < |es|
  {
    var e := es[k];
    && Tagged(s, e.id, task) && s.nodes[e.id].group != e.group
    && e.group.DataGroup? && e.group in s.groups
    && |Members(s, e.group) - Own(s, es[..k], task)| <= 1
  }

  ghost predicate NoneStrikes(s: Cluster, es: seq<Entry>, n: nat, task: nat)
    requires n <= |es|
  {
    forall k | 0 <= k < n :: !Strikes(s, es, k, task)
  }

  /** An extension that lists no node under two groups. */
  ghost predicate OneGroupEach(es: seq<Entry>) {
    forall i, j | 0 <= i < |es| && 0 <= j < |es| && es[i].id == es[j].id :: es[i].group == es[j].group
  }

  lemma {:induction false} OneGroupNeverStrikes(s: Cluster, es: seq<Entry>, task: nat)
    requires TaskInv(s, es, task) && OneGroupEach(es)
    ensures NoneStrikes(s, es, |es|, task)
  {
    forall k | 0 <= k < |es| ensures !Strikes(s, es, k, task) {
      if Tagged(s, es[k].id, task) {
        var j :| 0 <= j < |es| && es[j] == Entry(es[k].id, s.nodes[es[k].id].group);
      }
    }
  }

  lemma {:induction false} GrantedOneMore(es: seq<Entry>, an: seq<Answer>, k: nat, i: Id, g: Group)
    requires |an| == |es| && k < |es|
    ensures Granted(es[..k + 1], an[..k + 1], i, g) <==>
            Granted(es[..k], an[..k], i, g) || (es[k] == Entry(i, g) && an[k] == YES)
  {
    if Granted(es[..k], an[..k], i, g) {
      var j :| 0 <= j < k && es[..k][j] == Entry(i, g) && an[..k][j] == YES;
      assert es[..k + 1][j] == Entry(i, g) && an[..k + 1][j] == YES;
    }
    if Granted(es[..k + 1], an[..k + 1], i, g) {
      var j :| 0 <= j < k + 1 && es[..k + 1][j] == Entry(i, g) && an[..k + 1][j] == YES;
      assert j < k ==> es[..k][j] == Entry(i, g) && an[..k][j] == YES;
    }
    assert es[..k + 1][k] == es[k] && an[..k + 1][k] == an[k];
  }

  lemma {:induction false} RemovedOneMore(s: Cluster, es: seq<Entry>, an: seq<Answer>, k: nat, task: nat)
    requires |an| == |es| && k < |es|
    ensures var e := es[k];
            Removed(s, es[..k + 1], an[..k + 1], task) == Removed(s, es[..k], an[..k], task) +
            if an[k] == YES && Tagged(s, e.id, task) && s.nodes[e.id].group == e.group then {e.id} else {}
  {
    forall i | i in s.nodes
      ensures i in Removed(s, es[..k + 1], an[..k + 1], task) <==>
              i in Removed(s, es[..k], an[..k], task)
              || (Tagged(s, i, task) && es[k] == Entry(i, s.nodes[i].group) && an[k] == YES)
    {
      GrantedOneMore(es, an, k, i, s.nodes[i].group);
    }
  }

  lemma {:induction false} RemovedIsOwn(s: Cluster, es: seq<Entry>, an: seq<Answer>, task: nat)
    requires |an| == |es|
    ensures Removed(s, es, an, task) <= Own(s, es, task)
  {
  }

  lemma {:induction false} TwoMembers(m: set<Id>, i: Id, j: Id)
    requires i in m && j in m && i != j
    ensures |m| > 1
  {
    assert |m - {i}| == |m| - 1 && j in m - {i};
  }

  /** Exactly the node went, and its group if it was the last one there. */
  ghost predicate TakesJust(s: Cluster, s': Cluster, i: Id)
    requires i in s.nodes
  {
    var g := s.nodes[i].group;
    && s'.nodes == s.nodes - {i}
    && s'.groups == if Members(s, g) == {i} then s.groups - {g} else s.groups
  }

  /** Removing a tagged node takes just that node if and only if its entry names its own
      group; the coord and catalog groups always keep another node. */
  lemma {:induction false} RemoveOneIff(s: Cluster, e: Entry, task: nat)
    requires GroupsExist(s) && Anchored(s, task) && Tagged(s, e.id, task)
    ensures TakesJust(s, RemoveNode(s, e, YES, task), e.id) <==> s.nodes[e.id].group == e.group
  {
    var m := Members(s, e.group);
    if s.nodes[e.id].group != e.group {
      assert e.id in RemoveNode(s, e, YES, task).nodes;
    } else {
      assert e.id in m;
      if e.group.CoordGroup? {
        var c :| c in Members(s, CoordGroup) && !Tagged(s, c, task);
        TwoMembers(m, e.id, c);
      } else if e.group.CatalogGroup? {
        var c :| c in Members(s, CatalogGroup) && !Tagged(s, c, task);
        TwoMembers(m, e.id, c);
      } else if |m| <= 1 {
        assert |m - {e.id}| == 0;
        assert m == {e.id};
      }
    }
  }

  lemma {:induction false} RemovingKeepsInv(s: Cluster, s': Cluster, es: seq<Entry>, task: nat, i: Id)
    requires TaskInv(s, es, task) && Tagged(s, i, task)
    requires s'.nodes == s.nodes - {i}
    requires s'.groups == if Members(s, s.nodes[i].group) == {i} then s.groups - {s.nodes[i].group} else s.groups
    ensures TaskInv(s', es, task)
  {
    var c :| c in Members(s, CoordGroup) && !Tagged(s, c, task);
    assert c in Members(s', CoordGroup) && !Tagged(s', c, task);
    var d :| d in Members(s, CatalogGroup) && !Tagged(s, d, task);
    assert d in Members(s', CatalogGroup) && !Tagged(s', d, task);
    forall x | x in s'.nodes && s'.nodes[x].group.DataGroup? ensures s'.nodes[x].group in s'.groups {
      assert x in Members(s, s'.nodes[x].group);
    }
    forall x | Tagged(s', x, task) ensures Lists(es, x, s'.nodes[x].group) {
      assert Tagged(s, x, task);
    }
  }

  /** A data group stays unless it had nodes and all of them went. */
  ghost predicate GroupStays(s: Cluster, gone: set<Id>, g: Group) {
    g in s.groups && (Members(s, g) == {} || !(Members(s, g) <= gone))
  }

  ghost predicate RolledBack(s: Cluster, s': Cluster, gone: set<Id>) {
    && s'.nodes == s.nodes - gone
    && forall g: Group | g.DataGroup? :: g in s'.groups <==> GroupStays(s, gone, g)
  }

  lemma {:induction false} MembersLeft(s: Cluster, s': Cluster, gone: set<Id>, g: Group)
    requires s'.nodes == s.nodes - gone
    ensures Members(s', g) == Members(s, g) - gone
  {
  }

  lemma {:induction false} GroupsAfterOneMore(s: Cluster, s1: Cluster, s2: Cluster, gone: set<Id>, i: Id)
    requires RolledBack(s, s1, gone) && i in s1.nodes && s2.nodes == s1.nodes - {i}
    requires var g := s1.nodes[i].group;
             s2.groups == if Members(s1, g) == {i} then s1.groups - {g} else s1.groups
    ensures RolledBack(s, s2, gone + {i})
  {
    assert s2.nodes == s.nodes - (gone + {i});
    var h := s1.nodes[i].group;
    forall g: Group | g.DataGroup? ensures g in s2.groups <==> GroupStays(s, gone + {i}, g) {
      MembersLeft(s, s1, gone, g);
      assert i in Members(s, h);
      if g == h {
        assert Members(s1, g) == {i} <==> Members(s, g) <= gone + {i};
      } else {
        assert i !in Members(s, g);
      }
    }
  }

  lemma {:induction false} MoreMembers(a: set<Id>, b: set<Id>)
    requires a <= b
    ensures |a| <= |b|
  {
    assert |b| == |a| + |b - a| by {
      assert b == a + (b - a);
    }
  }

  /** An entry under the wrong group that does not strike changes nothing. */
  lemma {:induction false} WrongGroupIsSkipped(s: Cluster, s1: Cluster, es: seq<Entry>, an: seq<Answer>,
                                               k: nat, task: nat)
    requires |an| == |es| && k < |es| && !Strikes(s, es, k, task)
    requires RolledBack(s, s1, Removed(s, es[..k], an[..k], task))
    requires Tagged(s1, es[k].id, task) && s1.nodes[es[k].id].group != es[k].group
    ensures RemoveNode(s1, es[k], YES, task) == s1
  {
    var g := es[k].group;
    if g.DataGroup? && g in s1.groups {
      RemovedIsOwn(s, es[..k], an[..k], task);
      MembersLeft(s, s1, Removed(s, es[..k], an[..k], task), g);
      MoreMembers(Members(s, g) - Own(s, es[..k], task), Members(s1, g));
    }
  }

  lemma {:induction false} RollbackOneMore(s: Cluster, s1: Cluster, es: seq<Entry>, an: seq<Answer>, k: nat, task: nat)
    requires |an| == |es| && TaskInv(s1, es, task) && k < |es| && !Strikes(s, es, k, task)
    requires RolledBack(s, s1, Removed(s, es[..k], an[..k], task))
    ensures var s2 := RemoveNode(s1, es[k], an[k], task);
            TaskInv(s2, es, task) && RolledBack(s, s2, Removed(s, es[..k + 1], an[..k + 1], task))
  {
    var e, gone := es[k], Removed(s, es[..k], an[..k], task);
    RemovedOneMore(s, es, an, k, task);
    if Tagged(s1, e.id, task) && an[k] == YES && s1.nodes[e.id].group == e.group {
      RemoveOneIff(s1, e, task);
      var s2 := RemoveNode(s1, e, YES, task);
      RemovingKeepsInv(s1, s2, es, task, e.id);
      GroupsAfterOneMore(s, s1, s2, gone, e.id);
    } else {
      if Tagged(s1, e.id, task) && an[k] == YES {
        WrongGroupIsSkipped(s, s1, es, an, k, task);
      }
      assert Removed(s, es[..k + 1], an[..k + 1], task) == gone;
    }
  }

  lemma {:induction false} RollbackStep(s: Cluster, es: seq<Entry>, an: seq<Answer>, k: nat, task: nat)
    requires |an| == |es| && k < |es|
    ensures Rollback(s, es[..k + 1], an[..k + 1], task) ==
            RemoveNode(Rollback(s, es[..k], an[..k], task), es[k], an[k], task)
    ensures Statuses(s, es[..k + 1], an[..k + 1], task) == Statuses(s, es[..k], an[..k], task) +
            [Returns(Rollback(s, es[..k], an[..k], task), es[k], an[k], task)]
  {
    assert es[..k + 1][..k] == es[..k] && an[..k + 1][..k] == an[..k];
  }

  lemma {:induction false} WholeRollback(es: seq<Entry>, an: seq<Answer>)
    requires |an| == |es|
    ensures es[..|es|] == es && an[..|es|] == an
  {
  }

  /** Rollback of the first n entries removes exactly their tagged nodes whose removal was
      granted, and exactly the data groups it empties. */
  lemma {:induction false} RollbackRemovesExactly(s: Cluster, es: seq<Entry>, an: seq<Answer>, n: nat, task: nat)
    requires |an| == |es| && TaskInv(s, es, task) && n <= |es| && NoneStrikes(s, es, n, task)
    ensures var s' := Rollback(s, es[..n], an[..n], task);
            TaskInv(s', es, task) && RolledBack(s, s', Removed(s, es[..n], an[..n], task))
  {
    if n > 0 {
      RollbackRemovesExactly(s, es, an, n - 1, task);
      RollbackStep(s, es, an, n - 1, task);
      RollbackOneMore(s, Rollback(s, es[..n - 1], an[..n - 1], task), es, an, n - 1, task);
    } else {
      NothingRolledBack(s);
      assert Removed(s, es[..n], an[..n], task) == {};
    }
  }

  lemma {:induction false} RollbackOnlyShrinks(s: Cluster, es: seq<Entry>, an: seq<Answer>, k: nat, n: nat, task: nat)
    requires |an| == |es| && k <= n <= |es|
    ensures Rollback(s, es[..n], an[..n], task).nodes.Keys <= Rollback(s, es[..k], an[..k], task).nodes.Keys
    ensures Rollback(s, es[..n], an[..n], task).groups <= Rollback(s, es[..k], an[..k], task).groups
    decreases n
  {
    if k < n {
      RollbackOnlyShrinks(s, es, an, k, n - 1, task);
      RollbackStep(s, es, an, n - 1, task);
    }
  }

  /** Answers that make entry k strike: yes to it, and before it to the entries that list
      members of the group it wrongly names under that group, all but one of them. */
  ghost function StrikeAnswers(es: seq<Entry>, k: nat, taken: set<Id>): (an: seq<Answer>)
    requires k < |es|
    ensures |an| == |es|
  {
    seq(|es|, j requires 0 <= j < |es| =>
      if j == k || (j < k && es[j].id in taken && es[j].group == es[k].group) then YES else Answer(false, false, false))
  }

  lemma {:induction false} StrikeRemoves(s: Cluster, es: seq<Entry>, k: nat, taken: set<Id>, task: nat)
    requires k < |es| && Strikes(s, es, k, task)
    requires taken <= Members(s, es[k].group) && taken <= Own(s, es[..k], task)
    ensures var an := StrikeAnswers(es, k, taken);
            Removed(s, es[..k], an[..k], task) == taken && Removed(s, es, an, task) == taken
  {
    var an, g := StrikeAnswers(es, k, taken), es[k].group;
    forall i | i in taken ensures i in Removed(s, es[..k], an[..k], task) && i in Removed(s, es, an, task) {
      var j :| 0 <= j < k && es[..k][j] == Entry(i, g);
      assert es[j] == Entry(i, g) && an[j] == YES && an[..k][j] == YES;
    }
    assert Removed(s, es[..k], an[..k], task) <= taken;
    assert Removed(s, es, an, task) <= taken;
  }

  lemma {:induction false} FirstStrike(s: Cluster, es: seq<Entry>, n: nat, task: nat) returns (k: nat)
    requires n <= |es| && !NoneStrikes(s, es, n, task)
    ensures k < n && Strikes(s, es, k, task) && NoneStrikes(s, es, k, task)
  {
    if NoneStrikes(s, es, n - 1, task) {
      k := n - 1;
    } else {
      k := FirstStrike(s, es, n - 1, task);
    }
  }

  /** The member of the group that is there when the entry strikes, if there is one. */
  lemma {:induction false} LastMember(m: set<Id>, own: set<Id>) returns (left: set<Id>)
    requires |m - own| <= 1
    ensures left <= m && |left| <= 1 && m - left <= own && (m != {} ==> left != {})
  {
    left := m - own;
    if left == {} && m != {} {
      var y :| y in m;
      left := {y};
    }
  }

  /** The removal of the group with what is left in it. */
  lemma {:induction false} GroupGoes(s1: Cluster, e: Entry, left: set<Id>, task: nat)
    requires Tagged(s1, e.id, task) && e.group.DataGroup? && e.group in s1.groups
    requires Members(s1, e.group) == left && |left| <= 1
    ensures var s2 := RemoveNode(s1, e, YES, task);
            e.group !in s2.groups && s2.nodes == s1.nodes - left
  {
  }

  lemma {:induction false} StruckState(s: Cluster, es: seq<Entry>, an: seq<Answer>, k: nat, left: set<Id>, task: nat)
    requires |an| == |es| && k < |es| && TaskInv(s, es, task) && Strikes(s, es, k, task) && NoneStrikes(s, es, k, task)
    requires var m := Members(s, es[k].group);
             && left <= m && |left| <= 1 && (m != {} ==> left != {})
             && an[k] == YES && Removed(s, es[..k], an[..k], task) == m - left
    ensures es[k].group !in Rollback(s, es[..k + 1], an[..k + 1], task).groups
  {
    var e, m := es[k], Members(s, es[k].group);
    var s1 := Rollback(s, es[..k], an[..k], task);
    RollbackRemovesExactly(s, es, an, k, task);
    MembersLeft(s, s1, m - left, e.group);
    assert m - (m - left) == left && e.id !in m;
    assert GroupStays(s, m - left, e.group);
    GroupGoes(s1, e, left, task);
    RollbackStep(s, es, an, k, task);
  }

  lemma {:induction false} StruckIsWrong(s: Cluster, es: seq<Entry>, k: nat, task: nat) returns (an: seq<Answer>)
    requires TaskInv(s, es, task) && k < |es| && Strikes(s, es, k, task) && NoneStrikes(s, es, k, task)
    ensures |an| == |es| && !RolledBack(s, Rollback(s, es, an, task), Removed(s, es, an, task))
  {
    var m := Members(s, es[k].group);
    var left := LastMember(m, Own(s, es[..k], task));
    an := StrikeAnswers(es, k, m - left);
    StrikeRemoves(s, es, k, m - left, task);
    StruckState(s, es, an, k, left, task);
    RollbackOnlyShrinks(s, es, an, k + 1, |es|, task);
    WholeRollback(es, an);
    assert GroupStays(s, m - left, es[k].group);
  }

  /** Rollback is right whatever the servers answer, attempt by attempt, if and only if no
      entry strikes. */
  lemma {:induction false} RollbackIsRightIff(s: Cluster, es: seq<Entry>, task: nat)
    requires TaskInv(s, es, task)
    ensures (forall an: seq<Answer> | |an| == |es| ::
               RolledBack(s, Rollback(s, es, an, task), Removed(s, es, an, task))) <==>
            NoneStrikes(s, es, |es|, task)
  {
    if NoneStrikes(s, es, |es|, task) {
      forall an: seq<Answer> | |an| == |es|
        ensures RolledBack(s, Rollback(s, es, an, task), Removed(s, es, an, task))
      {
        RollbackRemovesExactly(s, es, an, |es|, task);
        WholeRollback(es, an);
      }
    } else {
      var k := FirstStrike(s, es, |es|, task);
      var an := StruckIsWrong(s, es, k, task);
      assert !RolledBack(s, Rollback(s, es, an, task), Removed(s, es, an, task));
    }
  }

  // ----- what the recorded statuses mean

  lemma {:induction false} StatusAt(s: Cluster, es: seq<Entry>, an: seq<Answer>, k: nat, n: nat, task: nat)
    requires |an| == |es| && k < n <= |es|
    ensures Statuses(s, es[..n], an[..n], task)[k] == Returns(Rollback(s, es[..k], an[..k], task), es[k], an[k], task)
    decreases n
  {
    RollbackStep(s, es, an, n - 1, task);
    if k < n - 1 {
      StatusAt(s, es, an, k, n - 1, task);
    }
  }

  /** A tagged node whose entry names its own group is there for the servers to remove. */
  lemma {:induction false} OwnGroupIsAttempted(s: Cluster, e: Entry, task: nat)
    requires GroupsExist(s) && Anchored(s, task) && Tagged(s, e.id, task) && s.nodes[e.id].group == e.group
    ensures Attempts(s, e)
  {
    if !e.group.DataGroup? {
      var c :| c in Members(s, e.group) && !Tagged(s, c, task);
      TwoMembers(Members(s, e.group), e.id, c);
    }
  }

  /** What the status recorded for an entry means, if the entry names its node's own group.
      It is recorded as failed if and only if the node was still there with its tag and
      could be read, and the attempt was not granted; the node is then still there after
      the entry.  After an entry recorded as finished the tagged node is still there if and
      only if it could not be read.  At the end it is there unless some entry's attempt
      was granted. */
  lemma {:induction false} StatusMeans(s: Cluster, es: seq<Entry>, an: seq<Answer>, n: nat, task: nat, k: nat)
    requires |an| == |es| && TaskInv(s, es, task) && k < n <= |es| && NoneStrikes(s, es, n, task)
    requires Tagged(s, es[k].id, task) ==> s.nodes[es[k].id].group == es[k].group
    ensures var i, failed := es[k].id, !Statuses(s, es[..n], an[..n], task)[k];
            var s1, s2 := Rollback(s, es[..k], an[..k], task), Rollback(s, es[..k + 1], an[..k + 1], task);
            && (failed <==> an[k].readable && an[k] != YES && Tagged(s1, i, task))
            && (failed ==> Tagged(s2, i, task))
            && (!failed ==> (Tagged(s2, i, task) <==> Tagged(s1, i, task) && !an[k].readable))
    ensures var i, s' := es[k].id, Rollback(s, es[..n], an[..n], task);
            && (Tagged(s', i, task) <==> Tagged(s, i, task) && !Granted(es[..n], an[..n], i, es[k].group))
  {
    StatusAt(s, es, an, k, n, task);
    RollbackRemovesExactly(s, es, an, n, task);
    RollbackRemovesExactly(s, es, an, k, task);
    RollbackRemovesExactly(s, es, an, k + 1, task);
    RemovedOneMore(s, es, an, k, task);
    var s1 := Rollback(s, es[..k], an[..k], task);
    if Tagged(s1, es[k].id, task) {
      OwnGroupIsAttempted(s1, es[k], task);
    }
  }

  /** For an entry whose node no other entry lists, at the end of the whole rollback. */
  lemma {:induction false} OnlyEntryStatusMeans(s: Cluster, es: seq<Entry>, an: seq<Answer>, task: nat, k: nat)
    requires |an| == |es| && TaskInv(s, es, task) && k < |es| && NoneStrikes(s, es, |es|, task)
    requires forall j | 0 <= j < |es| && j != k :: es[j].id != es[k].id
    ensures var i, failed, s' := es[k].id, !Statuses(s, es, an, task)[k], Rollback(s, es, an, task);
            && (failed <==> an[k].readable && an[k] != YES && Tagged(s, i, task))
            && (failed ==> Tagged(s', i, task))
            && (!failed ==> (Tagged(s', i, task) <==> Tagged(s, i, task) && !an[k].readable))
  {
    var i := es[k].id;
    if Tagged(s, i, task) {
      var j :| 0 <= j < |es| && es[j] == Entry(i, s.nodes[i].group);
      assert j == k;
    }
    StatusMeans(s, es, an, |es|, task, k);
    WholeRollback(es, an);
    RollbackRemovesExactly(s, es, an, k, task);
    assert forall g :: !Granted(es[..k], an[..k], i, g);
    assert Granted(es, an, i, es[k].group) <==> an[k] == YES;
  }

  lemma {:induction false} NothingRolledBack(s: Cluster)
    ensures RolledBack(s, s, {})
  {
    assert s.nodes - {} == s.nodes;
  }

  // ----- extend, then roll back

  /** Nodes from before the extension are never changed by it. */
  lemma {:induction false} TaskKeepsOldNodes(s: Cluster, steps: seq<Step>, task: nat, i: Id)
    requires i in s.nodes && s.nodes[i].tag != Some(task)
    ensures i in ApplyAll(s, steps, task).nodes && ApplyAll(s, steps, task).nodes[i] == s.nodes[i]
  {
    if steps != [] {
      TaskKeepsOldNodes(s, steps[..|steps| - 1], task, i);
    }
  }

  /** A node the extension added carries its tag, unless a restore step was carried out on
      it. */
  lemma {:induction false} NewNodesAreTagged(s: Cluster, steps: seq<Step>, task: nat, i: Id)
    requires i !in s.nodes && i in ApplyAll(s, steps, task).nodes
    requires forall k | 0 <= k < |steps| && steps[k].Restore? && steps[k].ok :: steps[k].e.id != i
    ensures Tagged(ApplyAll(s, steps, task), i, task)
  {
    var n := |steps| - 1;
    if i in ApplyAll(s, steps[..n], task).nodes {
      NewNodesAreTagged(s, steps[..n], task, i);
    }
  }

  /** The cluster before the extension: nothing carries its identity, the coord and catalog
      groups have nodes. */
  ghost predicate Before(s: Cluster, task: nat) {
    && GroupsExist(s)
    && (forall i | i in s.nodes :: s.nodes[i].tag != Some(task))
    && Members(s, CoordGroup) != {} && Members(s, CatalogGroup) != {}
  }

  lemma {:induction false} BeforeGivesInv(s: Cluster, es: seq<Entry>, task: nat)
    requires Before(s, task)
    ensures TaskInv(s, es, task)
  {
    var c :| c in Members(s, CoordGroup);
    assert !Tagged(s, c, task);
    var d :| d in Members(s, CatalogGroup);
    assert !Tagged(s, d, task);
  }

  /** Whatever steps ran, in whatever order and with whatever answers, a rollback whose
      removals succeed leaves exactly the nodes that do not carry the tag: all old
      nodes as they were, and the new ones whose tag was restored. */
  lemma {:induction false} RollbackKeepsExactlyUntagged(s: Cluster, steps: seq<Step>, es: seq<Entry>,
                                                        an: seq<Answer>, task: nat, i: Id)
    requires Before(s, task) && StepsOf(steps, es) && NoneStrikes(ApplyAll(s, steps, task), es, |es|, task)
    requires |an| == |es| && forall k | 0 <= k < |an| :: an[k] == YES
    ensures var s1 := ApplyAll(s, steps, task);
            var s2 := Rollback(s1, es, an, task);
            && (i in s2.nodes <==> i in s1.nodes && !Tagged(s1, i, task))
            && (i in s2.nodes ==> s2.nodes[i] == s1.nodes[i])
            && (i in s.nodes ==> i in s2.nodes && s2.nodes[i] == s.nodes[i])
  {
    var s1 := ApplyAll(s, steps, task);
    BeforeGivesInv(s, es, task);
    TaskKeepsInv(s, steps, es, task);
    RollbackRemovesExactly(s1, es, an, |es|, task);
    WholeRollback(es, an);
    if Tagged(s1, i, task) {
      var k :| 0 <= k < |es| && es[k] == Entry(i, s1.nodes[i].group);
      assert an[k] == YES && i in Removed(s1, es, an, task);
    }
    if i in s.nodes {
      TaskKeepsOldNodes(s, steps, task, i);
    }
  }

  /** Without a successful restore step the node set is the one before the extension. */
  lemma {:induction false} RollbackRestoresNodes(s: Cluster, steps: seq<Step>, es: seq<Entry>, an: seq<Answer>,
                                                 task: nat)
    requires Before(s, task) && StepsOf(steps, es) && NoneStrikes(ApplyAll(s, steps, task), es, |es|, task)
    requires |an| == |es| && forall k | 0 <= k < |an| :: an[k] == YES
    requires forall k | 0 <= k < |steps| && steps[k].Restore? :: !steps[k].ok
    ensures Rollback(ApplyAll(s, steps, task), es, an, task).nodes == s.nodes
  {
    var s1 := ApplyAll(s, steps, task);
    var s2 := Rollback(s1, es, an, task);
    forall i ensures i in s2.nodes <==> i in s.nodes {
      RollbackKeepsExactlyUntagged(s, steps, es, an, task, i);
      if i in s1.nodes && i !in s.nodes {
        NewNodesAreTagged(s, steps, task, i);
      }
    }
    forall i | i in s.nodes ensures s2.nodes[i] == s.nodes[i] {
      RollbackKeepsExactlyUntagged(s, steps, es, an, task, i);
    }
  }

  // ----- which data groups come back

  ghost predicate MakesGroup(step: Step, g: Group) {
    step.Create? && step.groupOk && step.e.group == g
  }

  /** Some step got as far as making sure that the group exists. */
  ghost predicate MadeGroup(steps: seq<Step>, g: Group) {
    exists k :: 0 <= k < |steps| && MakesGroup(steps[k], g)
  }

  lemma {:induction false} MadeGroupStep(steps: seq<Step>, step: Step, g: Group)
    ensures MadeGroup(steps + [step], g) <==> MadeGroup(steps, g) || MakesGroup(step, g)
  {
    var more := steps + [step];
    if MadeGroup(steps, g) {
      var k :| 0 <= k < |steps| && MakesGroup(steps[k], g);
      assert more[k] == steps[k];
    }
    if MakesGroup(step, g) {
      assert more[|steps|] == step;
    }
  }

  lemma {:induction false} GroupsAfterSteps(s: Cluster, steps: seq<Step>, task: nat, g: Group)
    requires g.DataGroup?
    ensures g in ApplyAll(s, steps, task).groups <==> g in s.groups || MadeGroup(steps, g)
  {
    if steps != [] {
      var n := |steps| - 1;
      GroupsAfterSteps(s, steps[..n], task, g);
      assert steps == steps[..n] + [steps[n]];
      MadeGroupStep(steps[..n], steps[n], g);
    }
  }

  /** Rollback lets the group stand: it has no node, or one it does not remove. */
  ghost predicate LetsStand(s: Cluster, g: Group, task: nat) {
    Members(s, g) == {} || exists i :: i in Members(s, g) && !Tagged(s, i, task)
  }

  /** After any steps, a rollback whose removals succeed leaves a data group's existence as
      it was before the extension if and only if: a group that existed is let stand, and
      one that did not was never made or is not let stand. */
  lemma {:induction false} GroupIsRestoredIff(s: Cluster, steps: seq<Step>, es: seq<Entry>, an: seq<Answer>,
                                              task: nat, g: Group)
    requires Before(s, task) && StepsOf(steps, es) && g.DataGroup?
    requires NoneStrikes(ApplyAll(s, steps, task), es, |es|, task)
    requires |an| == |es| && forall k | 0 <= k < |an| :: an[k] == YES
    ensures var s1 := ApplyAll(s, steps, task);
            var s2 := Rollback(s1, es, an, task);
            (g in s2.groups <==> g in s.groups) <==>
            if g in s.groups then LetsStand(s1, g, task) else MadeGroup(steps, g) ==> !LetsStand(s1, g, task)
  {
    var s1 := ApplyAll(s, steps, task);
    var gone := Removed(s1, es, an, task);
    BeforeGivesInv(s, es, task);
    TaskKeepsInv(s, steps, es, task);
    RollbackRemovesExactly(s1, es, an, |es|, task);
    WholeRollback(es, an);
    GroupsAfterSteps(s, steps, task, g);
    forall i | Tagged(s1, i, task) ensures i in gone {
      var k :| 0 <= k < |es| && es[k] == Entry(i, s1.nodes[i].group);
      assert an[k] == YES && i in gone;
    }
    assert GroupStays(s1, gone, g) <==> g in s1.groups && LetsStand(s1, g, task);
  }

  /** Without a successful restore step the condition needs only the nodes the group had:
      an old group must not have been empty and given a node, a new one must have been
      given one. */
  lemma {:induction false} GroupIsRestoredWithoutRestoreIff(s: Cluster, steps: seq<Step>, es: seq<Entry>,
                                                            an: seq<Answer>, task: nat, g: Group)
    requires Before(s, task) && StepsOf(steps, es) && g.DataGroup?
    requires NoneStrikes(ApplyAll(s, steps, task), es, |es|, task)
    requires |an| == |es| && forall k | 0 <= k < |an| :: an[k] == YES
    requires forall k | 0 <= k < |steps| && steps[k].Restore? :: !steps[k].ok
    ensures var s1 := ApplyAll(s, steps, task);
            var s2 := Rollback(s1, es, an, task);
            (g in s2.groups <==> g in s.groups) <==>
            if g in s.groups then Members(s, g) != {} || Members(s1, g) == {}
            else MadeGroup(steps, g) ==> Members(s1, g) != {}
  {
    var s1 := ApplyAll(s, steps, task);
    GroupIsRestoredIff(s, steps, es, an, task, g);
    forall i | i in Members(s1, g) && !Tagged(s1, i, task) ensures i in Members(s, g) {
      if i !in s.nodes {
        NewNodesAreTagged(s, steps, task, i);
      } else {
        TaskKeepsOldNodes(s, steps, task, i);
      }
    }
    forall i | i in Members(s, g) ensures i in Members(s1, g) && !Tagged(s1, i, task) {
      TaskKeepsOldNodes(s, steps, task, i);
    }
  }

  /** A data group created for a node that is then refused has no tagged node to remove,
      so the empty group stays. */
  lemma {:induction false} EmptyGroupIsLeftBehind(s: Cluster, e: Entry, a: Answer, task: nat)
    requires Before(s, task) && e.group.DataGroup? && e.group !in s.groups
    ensures var steps := [Create(e, true, false)];
            e.group in Rollback(ApplyAll(s, steps, task), [e], [a], task).groups
  {
    var steps := [Create(e, true, false)];
    assert steps[..0] == [];
    assert ApplyAll(s, steps, task) == Install(s, e, true, false, task);
    assert [e][..0] == [];
  }

  /** A data group that was there without nodes goes with the one node the extension put
      into it. */
  lemma {:induction false} EmptyOldGroupIsDeleted(s: Cluster, e: Entry, task: nat)
    requires Before(s, task) && e.group.DataGroup? && e.group in s.groups && Members(s, e.group) == {}
    requires e.id !in s.nodes
    ensures var steps := [Create(e, true, true)];
            e.group !in Rollback(ApplyAll(s, steps, task), [e], [YES], task).groups
  {
    var steps := [Create(e, true, true)];
    assert steps[..0] == [];
    var s1 := Install(s, e, true, true, task);
    assert ApplyAll(s, steps, task) == s1;
    assert [e][..0] == [];
    assert Members(s1, e.group) == {e.id} by {
      assert forall i | i in s.nodes :: i !in Members(s, e.group);
    }
  }

  /** Two entries, the k-th of which names the group y is alone in: once its attempt is
      granted while x is tagged elsewhere, y is gone. */
  lemma {:induction false} StrikeDeletes(s1: Cluster, es: seq<Entry>, an: seq<Answer>, k: nat, y: Id, task: nat)
    requires |an| == |es| && k < |es| && an[k] == YES
    requires var e, s2 := es[k], Rollback(s1, es[..k], an[..k], task);
             && e.group.DataGroup? && Tagged(s2, e.id, task)
             && e.group in s2.groups && Members(s2, e.group) == {y}
    ensures y !in Rollback(s1, es, an, task).nodes
  {
    RollbackStep(s1, es, an, k, task);
    RollbackOnlyShrinks(s1, es, an, k + 1, |es|, task);
    WholeRollback(es, an);
    assert y in Members(Rollback(s1, es[..k], an[..k], task), es[k].group);
  }

  /** x is listed under g1 and g2 and was created in g1, where y is alone in g2. */
  ghost function Doubled(s: Cluster, x: Id, g1: Group, task: nat): Cluster {
    s.(nodes := s.nodes[x := Info(g1, Some(task))], groups := s.groups + {g1})
  }

  lemma {:induction false} DoubledIsMade(s: Cluster, x: Id, y: Id, g1: Group, g2: Group, task: nat)
    requires Before(s, task) && x !in s.nodes
    requires g1.DataGroup? && g2.DataGroup? && g1 != g2 && g2 in s.groups && Members(s, g2) == {y}
    ensures ApplyAll(s, [Create(Entry(x, g2), true, false), Create(Entry(x, g1), true, true)], task) ==
            Doubled(s, x, g1, task)
    ensures ApplyAll(s, [Create(Entry(x, g1), true, true)], task) == Doubled(s, x, g1, task)
    ensures Members(Doubled(s, x, g1, task), g2) == {y}
  {
    var steps := [Create(Entry(x, g2), true, false), Create(Entry(x, g1), true, true)];
    assert steps[..1] == [steps[0]] && steps[..1][..0] == [];
    assert s.groups + {g2} == s.groups;
    assert ApplyAll(s, steps[..1], task) == Apply(ApplyAll(s, [], task), steps[0], task) == s;
    assert [steps[1]][..0] == [];
    assert forall i | i in s.nodes :: i in Members(s, g2) <==> i == y;
    assert y in Members(s, g2);
  }

  /** A node listed under two groups, created in the second: rollback removes the group the
      first entry names, with the old node that was alone in it. */
  lemma {:induction false} TwoGroupsDeleteOldNode(s: Cluster, x: Id, y: Id, g1: Group, g2: Group, a: Answer, task: nat)
    requires Before(s, task) && x !in s.nodes
    requires g1.DataGroup? && g2.DataGroup? && g1 != g2 && g2 in s.groups && Members(s, g2) == {y}
    ensures var es := [Entry(x, g2), Entry(x, g1)];
            var steps := [Create(es[0], true, false), Create(es[1], true, true)];
            StepsOf(steps, es) && y !in Rollback(ApplyAll(s, steps, task), es, [YES, a], task).nodes
  {
    var es := [Entry(x, g2), Entry(x, g1)];
    assert Lists(es, x, g2) && Lists(es, x, g1) by {
      assert es[0] == Entry(x, g2) && es[1] == Entry(x, g1);
    }
    DoubledIsMade(s, x, y, g1, g2, task);
    StrikeDeletes(Doubled(s, x, g1, task), es, [YES, a], 0, y, task);
  }

  /** The same node created under the first entry: the attempt on it is refused, and the
      second attempt, under the other group, removes that group with the old node. */
  lemma {:induction false} SecondAttemptDeletesOldNode(s: Cluster, x: Id, y: Id, g1: Group, g2: Group, task: nat)
    requires Before(s, task) && x !in s.nodes
    requires g1.DataGroup? && g2.DataGroup? && g1 != g2 && g2 in s.groups && Members(s, g2) == {y}
    ensures var es := [Entry(x, g1), Entry(x, g2)];
            var steps := [Create(es[0], true, true)];
            var s1 := ApplyAll(s, steps, task);
            var an := [Answer(true, true, false), YES];
            && StepsOf(steps, es) && Strikes(s1, es, 1, task)
            && !Statuses(s1, es, an, task)[0] && y !in Rollback(s1, es, an, task).nodes
  {
    var es, an := [Entry(x, g1), Entry(x, g2)], [Answer(true, true, false), YES];
    assert Lists(es, x, g1) by {
      assert es[0] == Entry(x, g1);
    }
    DoubledIsMade(s, x, y, g1, g2, task);
    var s1 := Doubled(s, x, g1, task);
    RollbackStep(s1, es, an, 0, task);
    WholeRollback(es, an);
    StatusAt(s1, es, an, 0, 2, task);
    StrikeDeletes(s1, es, an, 1, y, task);
    MoreMembers(Members(s1, g2) - Own(s1, es[..1], task), {y});
  }

  // ----- the scripts, step by step on the cluster

  /** Taking one of several nodes out of a group empties no group. */
  lemma {:induction false} OneLeft(s: Cluster, i: Id, g: Group)
    requires i in Members(s, g) && |Members(s, g)| > 1
    ensures forall h: Group | Members(s, h) != {} :: Members(s.(nodes := s.nodes - {i}), h) != {}
  {
    var s' := s.(nodes := s.nodes - {i});
    forall h: Group | Members(s, h) != {} ensures Members(s', h) != {} {
      assert Members(s', h) == Members(s, h) - {i};
      assert h == g ==> |Members(s, h) - {i}| == |Members(s, h)| - 1;
    }
  }

  class ClusterAdmin {
    var nodes: map<Id, Info>
    var groups: set<Group>

    ghost function View(): Cluster
      reads this
    {
      Cluster(nodes, groups)
    }

    method InstallNode(e: Entry, groupOk: bool, nodeOk: bool, task: nat) returns (done: bool)
      modifies this
      ensures View() == Install(old(View()), e, groupOk, nodeOk, task)
      ensures done <==> groupOk && nodeOk && e.id !in old(nodes)
      ensures done ==> Tagged(View(), e.id, task) && nodes[e.id].group == e.group
      ensures done && e.group.DataGroup? ==> e.group in groups
      ensures forall i | i in old(nodes) :: i in nodes && nodes[i] == old(nodes)[i]
      ensures !done ==> nodes == old(nodes)
    {
      if !groupOk {
        return false;
      }
      if e.group.DataGroup? {
        groups := groups + {e.group};
      }
      if !nodeOk || e.id in nodes {
        return false;
      }
      nodes := nodes[e.id := Info(e.group, Some(task))];
      done := true;
    }

    method RestoreNodeConfig(e: Entry, ok: bool, task: nat)
      modifies this
      ensures View() == RestoreConfig(old(View()), e, ok, task)
      ensures ok ==> !Tagged(View(), e.id, task)
      ensures ok && Tagged(old(View()), e.id, task) ==> nodes[e.id] == Info(old(nodes)[e.id].group, None)
      ensures !ok || !Tagged(old(View()), e.id, task) ==> nodes == old(nodes)
      ensures nodes.Keys == old(nodes).Keys && groups == old(groups)
      ensures forall i | i in nodes && i != e.id :: nodes[i] == old(nodes)[i]
    {
      if ok && e.id in nodes && nodes[e.id].tag == Some(task) {
        nodes := nodes[e.id := nodes[e.id].(tag := None)];
      }
    }

    /** `_checkNodeByScript`: true when the node is not this extension's to remove, which is
        also the answer when its configuration cannot be read in ten attempts. */
    method CheckNode(e: Entry, readable: bool, task: nat) returns (skip: bool)
      ensures skip <==> !readable || !Tagged(View(), e.id, task)
    {
      for i := 0 to 10
        invariant i > 0 ==> !(readable && e.id in nodes)
      {
        if readable && e.id in nodes {
          return nodes[e.id].tag != Some(task);
        }
      }
      skip := true;
    }

    /** `_removeNode`; the answer is false when it throws. */
    method RemoveOneNode(e: Entry, a: Answer, task: nat) returns (done: bool)
      modifies this
      ensures View() == RemoveNode(old(View()), e, a, task)
      ensures done == Returns(old(View()), e, a, task)
      ensures !done <==>
                && a.readable && Tagged(old(View()), e.id, task)
                && (!a.found || (!a.removable &&
                     if e.group.DataGroup? then e.group in old(groups) else |Members(old(View()), e.group)| > 1))
      ensures !done || !a.readable || !Tagged(old(View()), e.id, task) ==> View() == old(View())
      ensures forall g: Group | !g.DataGroup? && Members(old(View()), g) != {} :: Members(View(), g) != {}
    {
      var skip := CheckNode(e, a.readable, task);
      if skip {
        return true;
      }
      if !a.found {
        return false;
      }
      if e.group.DataGroup? && e.group !in groups {
        return true;
      }
      var members := set i | i in nodes && nodes[i].group == e.group;
      if |members| > 1 {
        if !a.removable {
          return false;
        }
        if e.id in members {
          OneLeft(View(), e.id, e.group);
          nodes := nodes - {e.id};
        }
      } else if e.group.DataGroup? {
        if !a.removable {
          return false;
        }
        nodes := nodes - members;
        groups := groups - {e.group};
      }
      done := true;
    }

    /** The rollback loop: a failed removal is recorded and the next entry is tried. */
    method RollbackAll(es: seq<Entry>, an: seq<Answer>, task: nat) returns (finished: seq<bool>)
      requires |an| == |es|
      modifies this
      ensures View() == Rollback(old(View()), es, an, task)
      ensures finished == Statuses(old(View()), es, an, task)
    {
      finished := [];
      var i := 0;
      while i < |es|
        invariant 0 <= i <= |es| && View() == Rollback(old(View()), es[..i], an[..i], task)
        invariant finished == Statuses(old(View()), es[..i], an[..i], task)
      {
        RollbackStep(old(View()), es, an, i, task);
        var done := RemoveOneNode(es[i], an[i], task);
        finished := finished + [done];
        i := i + 1;
      }
      WholeRollback(es, an);
    }
  }
}
