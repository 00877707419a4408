/** The pool as the object it is: `del_sdb_conn` sweeps the map in place under the
    pool lock, `is_idle` and `clear_all_cl` walk a connection's list
    (driver/mysql/sdb_adaptor.cc, driver/mysql/sdb_conn.cc). */
module ConnPoolObject {
  import opened ConnPool

  // ----- sweeping one connection at a time

  ghost function ClsOf(s: Pool, gone: set<ConnId>): set<ClId> {
    set k | k in s.cls && s.cls[k].conn in gone
  }

  lemma {:induction false} MinusTwice<K, V>(m: map<K, V>, a: set<K>, b: set<K>)
    ensures m - a - b == m - (a + b)
  {
  }

  lemma {:induction false} ClsOfOneMore(s: Pool, gone: set<ConnId>, c: ConnId)
    ensures ClsOf(s, gone) + ClsOf(Without(s, gone), {c}) == ClsOf(s, gone + {c})
  {
  }

  lemma {:induction false} ListOneMore(s: Pool, gone: set<ConnId>, c: ConnId)
    ensures Without(Without(s, gone), {c}).connList == Without(s, gone + {c}).connList
  {
  }

  lemma {:induction false} SweepOneMore(s: Pool, gone: set<ConnId>, c: ConnId)
    ensures Without(Without(s, gone), {c}) == Without(s, gone + {c})
  {
    var s1 := Without(s, gone);
    MinusTwice(s.conns, gone, {c});
    MinusTwice(s.cls, ClsOf(s, gone), ClsOf(s1, {c}));
    ClsOfOneMore(s, gone, c);
    ListOneMore(s, gone, c);
    assert s.freedConns + gone + {c} == s.freedConns + (gone + {c});
    assert s.freedCls + ClsOf(s, gone) + ClsOf(s1, {c}) == s.freedCls + (ClsOf(s, gone) + ClsOf(s1, {c}));
  }

  lemma {:induction false} SweepNone(s: Pool)
    ensures Without(s, {}) == s
  {
    assert s.conns - {} == s.conns;
    assert ClsOf(s, {}) == {};
    assert s.cls - {} == s.cls;
    assert (map t | t in s.connList && s.connList[t] !in {} :: s.connList[t]) == s.connList;
  }

  /** What was swept so far does not change who else may go. */
  lemma {:induction false} SweepingIsIndependent(s: Pool, gone: set<ConnId>, c: ConnId)
    requires ClsListed(s) && c in s.conns && c !in gone
    ensures Evictable(Without(s, gone), c) <==> Evictable(s, c)
    ensures Without(s, gone).conns[c] == s.conns[c]
    ensures forall n | n in s.conns[c].cls :: ListsCl(Without(s, gone), c, n)
  {
    var s1 := Without(s, gone);
    forall n | n in s.conns[c].cls ensures ListsCl(s1, c, n) && s1.cls[s.conns[c].cls[n]] == s.cls[s.conns[c].cls[n]] {
      assert ListsCl(s, c, n);
    }
  }

  // ----- the values of a map under some of its keys

  ghost function Image<K, V>(m: map<K, V>, ks: set<K>): set<V> {
    set k | k in ks && k in m :: m[k]
  }

  lemma {:induction false} ImageOneMore<K, V>(m: map<K, V>, ks: set<K>, k: K)
    requires k in m && k !in ks
    requires forall i, j | i in m && j in m && m[i] == m[j] :: i == j
    ensures Image(m, ks + {k}) == Image(m, ks) + {m[k]} && m[k] !in Image(m, ks)
  {
    assert forall x | x in Image(m, ks + {k}) :: x in Image(m, ks) + {m[k]};
  }

  lemma {:induction false} ImageOfAll<K, V>(m: map<K, V>)
    ensures Image(m, m.Keys) == m.Values
  {
  }

  lemma {:induction false} NothingFreed(list: map<string, ClId>, cls: map<ClId, Cl>, freed: set<ClId>)
    ensures cls - Image(list, {}) == cls && freed + Image(list, {}) == freed
  {
  }

  lemma {:induction false} OneMoreFreed(list: map<string, ClId>, done: set<string>, n: string, cls: map<ClId,
                                        Cl>, freed: set<ClId>)
    requires n in list && n !in done
    requires forall i, j | i in list && j in list && list[i] == list[j] :: i == j
    ensures cls - Image(list, done) - {list[n]} == cls - Image(list, done + {n})
    ensures freed + Image(list, done) + {list[n]} == freed + Image(list, done + {n})
    ensures list[n] !in Image(list, done)
  {
    ImageOneMore(list, done, n);
    MinusTwice(cls, Image(list, done), {list[n]});
  }

  lemma {:induction false} SweepIsExact(s: Pool)
    requires ConnsListed(s) && ClsListed(s) && s.connNum > CONN_MAX
    ensures EvictedExactly(s, Evict(s))
  {
    var s' := Evict(s);
    forall t | t in s'.connList ensures StaysWhole(s, s', s.connList[t]) {
      StayIsWhole(s, s.connList[t]);
    }
    forall t | t in s.connList && t !in s'.connList ensures GoesWhole(s, s', s.connList[t]) {
      GoIsWhole(s, s.connList[t]);
    }
  }

  lemma {:induction false} StayIsWhole(s: Pool, c: ConnId)
    requires ClsListed(s) && s.connNum > CONN_MAX && c in s.conns && c !in Gone(s)
    ensures StaysWhole(s, Evict(s), c)
  {
    SweepingIsIndependent(s, Gone(s), c);
    forall n | n in s.conns[c].cls
      ensures var k := s.conns[c].cls[n]; k in s.cls && k in Evict(s).cls && Evict(s).cls[k] == s.cls[k]
    {
      assert ListsCl(s, c, n);
    }
  }

  lemma {:induction false} GoIsWhole(s: Pool, c: ConnId)
    requires ClsListed(s) && s.connNum > CONN_MAX && c in Gone(s)
    ensures GoesWhole(s, Evict(s), c)
  {
    forall n | n in s.conns[c].cls
      ensures var k := s.conns[c].cls[n]; k !in Evict(s).cls && k in Evict(s).freedCls
    {
      assert ListsCl(s, c, n);
    }
  }

  class SdbAdaptor {
    var conns: map<ConnId, Conn>
    var cls: map<ClId, Cl>
    var connList: map<Tid, ConnId>
    var connNum: int
    var connOf: map<Slot, ConnId>
    var clOf: map<Slot, ClId>
    var freedConns: set<ConnId>
    var freedCls: set<ClId>
    var nextConn: nat
    var nextCl: nat
    var locked: bool  // the pool's write lock

    ghost function View(): Pool
      reads this
    {
      Pool(conns, cls, connList, connNum, connOf, clOf, freedConns, freedCls, nextConn, nextCl)
    }

    method IsIdle(c: ConnId) returns (idle: bool)
      requires c in conns && forall n | n in conns[c].cls :: conns[c].cls[n] in cls
      ensures idle <==> Idle(View(), c)
    {
      var names := conns[c].cls.Keys;
      while names != {}
        invariant names <= conns[c].cls.Keys
        invariant forall n | n in conns[c].cls && n !in names :: cls[conns[c].cls[n]].ref <= 1
        decreases |names|
      {
        var n :| n in names;
        if cls[conns[c].cls[n]].ref > 1 {
          return false;
        }
        names := names - {n};
      }
      return true;
    }

    /** `delete` of a collection object. */
    method FreeCl(k: ClId)
      requires k in cls && k !in freedCls
      modifies this`cls, this`freedCls
      ensures cls == old(cls) - {k} && freedCls == old(freedCls) + {k}
    {
      cls := cls - {k};
      freedCls := freedCls + {k};
    }

    /** `clear_all_cl`, for the collections a connection lists.  Its assertion that each
        is referenced once is a precondition: the counts fall from 1, so no eviction is
        started from here. */
    method ClearAllCl(list: map<string, ClId>)
      requires locked
      requires forall n | n in list :: list[n] in cls && cls[list[n]].ref == 1 && list[n] !in freedCls
      requires forall n, m | n in list && m in list && list[n] == list[m] :: n == m
      modifies this`cls, this`freedCls
      ensures cls == old(cls) - list.Values && freedCls == old(freedCls) + list.Values
    {
      var names := list.Keys;
      ghost var done: set<string> := {};
      NothingFreed(list, cls, freedCls);
      while names != {}
        invariant names == list.Keys - done && done <= list.Keys
        invariant cls == old(cls) - Image(list, done) && freedCls == old(freedCls) + Image(list, done)
        decreases |names|
      {
        var n :| n in names;
        OneMoreFreed(list, done, n, old(cls), old(freedCls));
        FreeCl(list[n]);
        names, done := names - {n}, done + {n};
      }
      assert done == list.Keys;
      ImageOfAll(list);
    }

    /** `conn_list.erase`: the map's reference is the last one, so the connection and
        its collections are deleted. */
    method EraseConn(t: Tid)
      requires locked && t in connList && connList[t] in conns && Disjoint(View(), connList[t])
      requires conns[connList[t]].cls.Values == ClsOf(View(), {connList[t]})
      requires conns[connList[t]].ref == 1
      requires forall n | n in conns[connList[t]].cls :: cls[conns[connList[t]].cls[n]].ref == 1
      requires forall u | u in connList && connList[u] == connList[t] :: u == t
      modifies this`conns, this`cls, this`connList, this`freedConns, this`freedCls
      ensures View() == Without(old(View()), {old(connList)[t]})
    {
      var c := connList[t];
      assert connList - {t} == map u | u in connList && connList[u] !in {c} :: connList[u];
      connList := connList - {t};
      ClearAllCl(conns[c].cls);
      conns := conns - {c};
      freedConns := freedConns + {c};
    }

    method DelSdbConn()
      requires Sweepable(View()) && !locked
      modifies this
      ensures View() == Evict(old(View())) && !locked
      ensures if old(connNum) > CONN_MAX then EvictedExactly(old(View()), View()) else View() == old(View())
    {
      if connNum <= CONN_MAX {
        return;
      }
      SweepIsExact(View());
      locked := true;
      Sweep();
      connNum := |connList|;
      locked := false;
    }

    /** The pointer is reset and its count taken down; the old count is returned. */
    method DropConnPtr(p: Slot) returns (refTmp: int)
      requires p in connOf && connOf[p] in conns
      modifies this`conns, this`connOf
      ensures View() == DroppedConn(old(View()), p) && refTmp == old(conns[connOf[p]].ref)
    {
      var c := connOf[p];
      refTmp := conns[c].ref;
      conns := conns[c := conns[c].(ref := refTmp - 1)];
      connOf := connOf - {p};
    }

    method DropClPtr(p: Slot) returns (refTmp: int)
      requires p in clOf && clOf[p] in cls
      modifies this`cls, this`clOf
      ensures View() == DroppedCl(old(View()), p) && refTmp == old(cls[clOf[p]].ref)
    {
      var k := clOf[p];
      refTmp := cls[k].ref;
      cls := cls[k := cls[k].(ref := refTmp - 1)];
      clOf := clOf - {p};
    }

    /** `sdb_conn_auto_ptr::clear`.  The map still holds the connection, so the old
        count is never 1 here and the connection is not deleted by its user. */
    method ClearConnPtr(p: Slot)
      requires Inv(View()) && !locked
      modifies this
      ensures View() == LetGo(old(View()), p) && !locked
      ensures if LastConn(old(View()), p) then AllHeld(View()) else Kept(old(View()), View())
    {
      if p in connOf {
        ConnDropIsSweepable(View(), p);
        var refTmp := DropConnPtr(p);
        assert refTmp >= 2;
        if refTmp == 2 {
          DelSdbConn();
        }
      }
    }

    /** `sdb_cl_auto_ptr::clear`, likewise.  The thread it passes to eviction is read
        through the collection's raw connection pointer, which is live. */
    method ClearClPtr(p: Slot)
      requires Inv(View()) && !locked
      modifies this
      ensures View() == LetGoCl(old(View()), p) && !locked
      ensures if LastCl(old(View()), p) then AllHeld(View()) else Kept(old(View()), View())
    {
      if p in clOf {
        ClDropIsSweepable(View(), p);
        var _ := conns[cls[clOf[p]].conn].tid;
        var refTmp := DropClPtr(p);
        assert refTmp >= 2;
        if refTmp == 2 {
          DelSdbConn();
        }
      }
    }

    /** `p = other`, for a null pointer p. */
    method CopyConnPtr(p: Slot, c: ConnId)
      requires c in conns
      modifies this`conns, this`connOf
      ensures View() == CopyConn(old(View()), p, c)
    {
      conns := conns[c := conns[c].(ref := conns[c].ref + 1)];
      connOf := connOf[p := c];
    }

    method CopyClPtr(p: Slot, k: ClId)
      requires k in cls
      modifies this`cls, this`clOf
      ensures View() == CopyCl(old(View()), p, k)
    {
      cls := cls[k := cls[k].(ref := cls[k].ref + 1)];
      clOf := clOf[p := k];
    }

    /** A null pointer finds or makes the thread's connection. */
    method FindConnPtr(p: Slot, t: Tid)
      requires ConnsListed(View())
      modifies this`conns, this`connOf, this`connList, this`connNum, this`nextConn
      ensures View() == FindConn(old(View()), p, t)
    {
      if t in connList {
        CopyConnPtr(p, connList[t]);
      } else {
        var c := nextConn;
        conns := conns[c := Conn(t, 2, map[])];
        connOf := connOf[p := c];
        connList := connList[t := c];
        connNum := connNum + 1;
        nextConn := nextConn + 1;
      }
    }

    method GetSdbConn(p: Slot, t: Tid)
      requires Inv(View()) && !locked
      modifies this
      ensures View() == GetConn(old(View()), p, t) && !locked && HasConn(View(), p, t)
    {
      ClearConnPtr(p);
      FindConnPtr(p, t);
    }

    /** A null pointer finds or makes the collection. */
    method FindClPtr(p: Slot, c: ConnId, name: string, ok: bool)
      requires ClsListed(View()) && c in conns
      modifies this`conns, this`cls, this`clOf, this`freedCls, this`nextCl
      ensures View() == FindCl(old(View()), p, c, name, ok)
    {
      if name in conns[c].cls {
        assert ListsCl(View(), c, name);
        CopyClPtr(p, conns[c].cls[name]);
        return;
      }
      var k := nextCl;
      nextCl := nextCl + 1;
      if !ok {
        freedCls := freedCls + {k};
        return;
      }
      cls := cls[k := Cl(2, c, name)];
      conns := conns[c := conns[c].(cls := conns[c].cls[name := k])];
      clOf := clOf[p := k];
    }

    method GetClPtr(p: Slot, via: Slot, name: string, ok: bool)
      requires Inv(View()) && !locked && via in connOf
      modifies this
      ensures View() == GetCl(old(View()), p, via, name, ok) && !locked
      ensures HasCl(View(), p, old(connOf)[via], name, ok)
    {
      GetClUnfolds(View(), p, via, name, ok);
      ClearClPtr(p);
      FindClPtr(p, connOf[via], name, ok);
    }

    method AssignConnPtr(p: Slot, q: Slot)
      requires Inv(View()) && !locked && q in connOf && p != q
      modifies this
      ensures View() == Assign(old(View()), p, q) && !locked
    {
      ClearConnPtr(p);
      CopyConnPtr(p, connOf[q]);
    }

    method OpenTab(h: nat, t: Tid, name: string, connOk: bool, clOk: bool)
      requires Inv(View()) && !locked
      modifies this
      ensures View() == Opened(old(View()), h, t, name, connOk, clOk) && !locked
      ensures OnlyMoves(old(View()), View(), h) && (connOk && clOk ==> Serves(View(), h, t, name))
    {
      GetSdbConn(Handler(h), t);
      if connOk {
        GetClPtr(Handler(h), Handler(h), name, clOk);
      }
    }

    method CloseTab(h: nat)
      requires Inv(View()) && !locked
      modifies this
      ensures View() == Closed(old(View()), h) && !locked
      ensures OnlyMoves(old(View()), View(), h) && Handler(h) !in connOf && Handler(h) !in clOf
      ensures LastConn(old(View()), Handler(h)) && !LastCl(old(View()), Handler(h)) ==> AllHeld(View())
    {
      ClearClPtr(Handler(h));
      ClearConnPtr(Handler(h));
    }

    method DeleteTab(h: nat, t: Tid, name: string, connOk: bool, clOk: bool, dropOk: bool)
      requires Inv(View()) && !locked
      modifies this
      ensures View() == Deleted(old(View()), h, t, name, connOk, clOk, dropOk) && !locked
      ensures OnlyMoves(old(View()), View(), h) && SameBut(old(connOf), connOf, {Local})
      ensures connOk && dropOk ==> Handler(h) !in clOf
    {
      GetSdbConn(Local, t);
      if connOk {
        GetClPtr(Handler(h), Local, name, clOk);
        if Handler(h) in clOf && dropOk {
          ClearClPtr(Handler(h));
        }
      }
      ClearConnPtr(Local);
    }

    method EndTransaction(t: Tid)
      requires Inv(View()) && !locked
      modifies this
      ensures View() == LookedUp(old(View()), t) && !locked
      ensures Moves(old(View()), View(), {Local}, {})
    {
      GetSdbConn(Local, t);
      ClearConnPtr(Local);
    }

    /** `check_thread`: the handler's collection must belong to the calling thread. */
    method CheckThreadOf(h: nat, t: Tid, name: string, connOk: bool, clOk: bool)
      requires Inv(View()) && !locked
      modifies this
      ensures View() == Checked(old(View()), h, t, name, connOk, clOk) && !locked
      ensures OnlyMoves(old(View()), View(), h)
      ensures connOk && clOk ==>
                && Handler(h) in clOf && t in connList
                && clOf[Handler(h)] in cls && cls[clOf[Handler(h)]].conn == connList[t]
    {
      if Handler(h) !in clOf || conns[cls[clOf[Handler(h)]].conn].tid != t {
        SwitchThread(h, t, name, connOk, clOk);
      }
    }

    /** Any operation MySQL calls. */
    method Perform(op: Op)
      requires Inv(View()) && !locked
      modifies this
      ensures View() == Step(old(View()), op) && !locked && Did(old(View()), View(), op)
    {
      match op
      case OpenTable(h, t, name, connOk, clOk) => OpenTab(h, t, name, connOk, clOk);
      case CloseTable(h) => CloseTab(h);
      case CheckThread(h, t, name, connOk, clOk) => CheckThreadOf(h, t, name, connOk, clOk);
      case DeleteTable(h, t, name, connOk, clOk, dropOk) => DeleteTab(h, t, name, connOk, clOk, dropOk);
      case EndTxn(t) => EndTransaction(t);
    }

    /** Any run of operations: the object goes through the states of the machine, so that
        at every point counts are the number of holders and no pointer dangles. */
    method PerformAll(ops: seq<Op>)
      requires Inv(View()) && !locked
      modifies this
      ensures View() == Run(old(View()), ops) && Inv(View()) && Forward(old(View()), View()) && !locked
    {
      var i := 0;
      while i < |ops|
        invariant 0 <= i <= |ops| && Inv(View()) && !locked
        invariant Run(View(), ops[i..]) == Run(old(View()), ops)
      {
        assert ops[i..][1..] == ops[i + 1..];
        Perform(ops[i]);
        i := i + 1;
      }
    }

    method SwitchThread(h: nat, t: Tid, name: string, connOk: bool, clOk: bool)
      requires Inv(View()) && !locked
      modifies this
      ensures View() == Switch(old(View()), h, t, name, connOk, clOk) && !locked
      ensures OnlyMoves(old(View()), View(), h) && (connOk && clOk ==> Serves(View(), h, t, name))
    {
      GetSdbConn(Local, t);
      if connOk {
        GetClPtr(Handler(h), Local, name, clOk);
        if Handler(h) in clOf {
          AssignConnPtr(Handler(h), Local);
        }
      }
      ClearConnPtr(Local);
    }

    /** The loop over the map. */
    method Sweep()
      requires locked && Sweepable(View())
      modifies this`conns, this`cls, this`connList, this`freedConns, this`freedCls
      ensures View() == Without(old(View()), Gone(old(View())))
    {
      ghost var s, gone: set<ConnId> := View(), {};
      SweepNone(s);
      SweptNone(s);
      var todo := connList.Keys;
      while todo != {}
        invariant locked && View() == Without(s, gone) && todo <= connList.Keys && Swept(s, gone, todo)
        decreases |todo|
      {
        var t :| t in todo;
        todo := todo - {t};
        gone := Visit(s, gone, todo, t);
      }
      SweptAll(s, gone);
    }

    /** One step of the sweep. */
    method Visit(ghost s: Pool, ghost gone: set<ConnId>, ghost todo: set<Tid>, t: Tid)
      returns (ghost gone': set<ConnId>)
      requires locked && Sweepable(s) && View() == Without(s, gone)
      requires t in connList && t !in todo && SweptBut(s, gone, todo, t)
      modifies this`conns, this`cls, this`connList, this`freedConns, this`freedCls
      ensures View() == Without(s, gone') && Swept(s, gone', todo)
      ensures connList.Keys >= old(connList).Keys - {t}
    {
      var c := connList[t];
      SweepingIsIndependent(s, gone, c);
      SweptOneMore(s, gone, todo, t);
      gone' := gone;
      var idle := IsIdle(c);
      if conns[c].ref > 1 || !idle {
        return;
      }
      ReadyToErase(s, gone, t);
      ListIsClsOf(s, gone, c);
      SweepOneMore(s, gone, c);
      gone' := gone + {c};
      EraseConn(t);
    }
  }

  /** The collections listed by c are live, distinct and not yet freed. */
  ghost predicate Disjoint(s: Pool, c: ConnId)
    requires c in s.conns
  {
    && (forall n | n in s.conns[c].cls :: s.conns[c].cls[n] in s.cls && s.conns[c].cls[n] !in s.freedCls)
    && (forall n, m | n in s.conns[c].cls && m in s.conns[c].cls && s.conns[c].cls[n] == s.conns[c].cls[m] :: n == m)
  }

  /** Exactly the evictable connections of the threads already visited are gone. */
  ghost predicate Swept(s: Pool, gone: set<ConnId>, todo: set<Tid>) {
    && (forall c | c in gone :: Evictable(s, c) && s.conns[c].tid !in todo)
    && (forall c | c in s.conns && Evictable(s, c) && s.conns[c].tid !in todo :: c in gone)
  }

  /** The same with t still to come. */
  ghost predicate SweptBut(s: Pool, gone: set<ConnId>, todo: set<Tid>, t: Tid) {
    && (forall c | c in gone :: Evictable(s, c) && s.conns[c].tid !in todo && s.conns[c].tid != t)
    && (forall c | c in s.conns && Evictable(s, c) && s.conns[c].tid !in todo && s.conns[c].tid != t :: c in gone)
  }

  lemma {:induction false} SweptNone(s: Pool)
    requires ConnsListed(s)
    ensures Swept(s, {}, s.connList.Keys)
  {
  }

  lemma {:induction false} SweptOneMore(s: Pool, gone: set<ConnId>, todo: set<Tid>, t: Tid)
    requires ConnsListed(s) && t in s.connList && t !in todo && SweptBut(s, gone, todo, t)
    ensures Swept(s, if Evictable(s, s.connList[t]) then gone + {s.connList[t]} else gone, todo)
  {
  }

  lemma {:induction false} SweptAll(s: Pool, gone: set<ConnId>)
    requires Swept(s, gone, {})
    ensures gone == Gone(s)
  {
  }

  /** What the sweep relies on. */
  ghost predicate Sweepable(s: Pool) {
    && ConnsListed(s) && ClsListed(s)
    && (forall c | c in s.conns :: s.conns[c].ref >= 1)
    && (forall k | k in s.cls :: s.cls[k].ref >= 1 && k !in s.freedCls)
  }

  lemma {:induction false} CountsArePositive(s: Pool)
    requires Inv(s)
    ensures Sweepable(s)
  {
  }

  lemma {:induction false} ConnDropIsSweepable(s: Pool, p: Slot)
    requires Inv(s) && p in s.connOf
    ensures s.connOf[p] in s.conns && s.conns[s.connOf[p]].ref >= 2 && Sweepable(DroppedConn(s, p))
  {
    DropConn(s, p);
    CountsArePositive(DroppedConn(s, p));
  }

  lemma {:induction false} ClDropIsSweepable(s: Pool, p: Slot)
    requires Inv(s) && p in s.clOf
    ensures s.clOf[p] in s.cls && s.cls[s.clOf[p]].ref >= 2 && Sweepable(DroppedCl(s, p))
    ensures s.cls[s.clOf[p]].conn in s.conns
  {
    DropCl(s, p);
    CountsArePositive(DroppedCl(s, p));
  }

  lemma {:induction false} ReadyToErase(s: Pool, gone: set<ConnId>, t: Tid)
    requires Sweepable(s) && t in Without(s, gone).connList && Evictable(s, s.connList[t])
    ensures var s1 := Without(s, gone);
            var c := s1.connList[t];
            && c in s1.conns && Disjoint(s1, c) && s1.conns[c].ref == 1
            && (forall n | n in s1.conns[c].cls :: s1.cls[s1.conns[c].cls[n]].ref == 1)
            && (forall u | u in s1.connList && s1.connList[u] == c :: u == t)
  {
    var s1 := Without(s, gone);
    var c := s.connList[t];
    forall n | n in s.conns[c].cls ensures ListsCl(s1, c, n) && s1.conns[c].cls[n] !in s1.freedCls {
      assert ListsCl(s, c, n);
    }
  }

  lemma {:induction false} ListIsClsOf(s: Pool, gone: set<ConnId>, c: ConnId)
    requires ClsListed(s) && c in Without(s, gone).conns
    ensures s.conns[c].cls.Values == ClsOf(Without(s, gone), {c})
  {
    var s1 := Without(s, gone);
    forall n | n in s.conns[c].cls ensures s.conns[c].cls[n] in ClsOf(s1, {c}) {
      assert ListsCl(s, c, n);
    }
    forall k | k in ClsOf(s1, {c}) ensures k in s.conns[c].cls.Values {
      assert ClIsListed(s, k);
    }
  }
}
