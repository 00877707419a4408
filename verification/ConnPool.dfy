/** The connection pool: reference-counted connection and collection handles, and
    eviction of idle connections (driver/mysql/sdb_adaptor.cc, sdb_conn.cc,
    sdb_cl.cc, with the handler operations of ha_sdb.cc as its clients).

    Here the pool is a value and its operations are functions; module ConnPoolObject
    runs the eviction loop on the object. */
module ConnPool {

  type Tid = nat
  type ConnId = nat
  type ClId = nat

  const CONN_MAX := 500

  /** A pointer variable outside the pool: the `connection` or `cl` member of a table
      handler, or a local of the operation being run. */
  datatype Slot = Handler(h: nat) | Local

  /** `ref` is the count in the shared reference block; `cls` is `cl_list`. */
  datatype Conn = Conn(tid: Tid, ref: int, cls: map<string, ClId>)

  /** `conn` is the raw pointer `p_conn`; `name` is cs_name.cl_name. */
  datatype Cl = Cl(ref: int, conn: ConnId, name: string)

  datatype Pool = Pool(
    conns: map<ConnId, Conn>, cls: map<ClId, Cl>,           // live objects
    connList: map<Tid, ConnId>, connNum: int,
    connOf: map<Slot, ConnId>, clOf: map<Slot, ClId>,       // pointers outside the pool
    freedConns: set<ConnId>, freedCls: set<ClId>,
    nextConn: nat, nextCl: nat)

  const Empty := Pool(map[], map[], map[], 0, map[], map[], {}, {}, 0, 0)

  // ----- counting holders

  ghost function Holders<K, V>(m: map<K, V>, v: V): nat {
    |set k | k in m && m[k] == v|
  }

  lemma {:induction false} HoldersDrop<K, V>(m: map<K, V>, k: K, v: V)
    requires k in m
    ensures Holders(m - {k}, v) == Holders(m, v) - if m[k] == v then 1 else 0
  {
    var before, after := set x | x in m && m[x] == v, set x | x in m - {k} && (m - {k})[x] == v;
    assert after == before - {k};
  }

  lemma {:induction false} HoldersAdd<K, V>(m: map<K, V>, k: K, w: V, v: V)
    requires k !in m
    ensures Holders(m[k := w], v) == Holders(m, v) + if w == v then 1 else 0
  {
    var m' := m[k := w];
    var before, after := set x | x in m && m[x] == v, set x | x in m' && m'[x] == v;
    assert after == if w == v then before + {k} else before;
  }

  // ----- the invariant

  /** The pool map and the connections: one entry each, under their thread. */
  ghost predicate ConnsListed(s: Pool) {
    && (forall t | t in s.connList :: s.connList[t] in s.conns && s.conns[s.connList[t]].tid == t)
    && (forall c | c in s.conns :: s.conns[c].tid in s.connList && s.connList[s.conns[c].tid] == c)
  }

  /** Each collection is in the list of the connection it points to, once. */
  ghost predicate ClsListed(s: Pool) {
    && (forall c, n | c in s.conns && n in s.conns[c].cls :: ListsCl(s, c, n))
    && (forall k | k in s.cls :: ClIsListed(s, k))
  }

  ghost predicate ListsCl(s: Pool, c: ConnId, n: string)
    requires c in s.conns && n in s.conns[c].cls
  {
    var k := s.conns[c].cls[n];
    k in s.cls && s.cls[k].conn == c && s.cls[k].name == n
  }

  ghost predicate ClIsListed(s: Pool, k: ClId)
    requires k in s.cls
  {
    var c, n := s.cls[k].conn, s.cls[k].name;
    c in s.conns && n in s.conns[c].cls && s.conns[c].cls[n] == k
  }

  /** Reference counts: one for the list, one for each pointer outside. */
  ghost predicate Counted(s: Pool) {
    && (forall c | c in s.conns :: s.conns[c].ref == 1 + Holders(s.connOf, c))
    && (forall k | k in s.cls :: s.cls[k].ref == 1 + Holders(s.clOf, k))
  }

  /** No pointer outside the pool dangles. */
  ghost predicate NoDangling(s: Pool) {
    && (forall p | p in s.connOf :: s.connOf[p] in s.conns)
    && (forall p | p in s.clOf :: s.clOf[p] in s.cls && s.cls[s.clOf[p]].conn in s.conns)
  }

  /** Every object ever made is live or freed, never both. */
  ghost predicate FreedOnce(s: Pool) {
    && s.conns.Keys !! s.freedConns && (forall c :: c in s.conns || c in s.freedConns <==> 0 <= c < s.nextConn)
    && s.cls.Keys !! s.freedCls && (forall k :: k in s.cls || k in s.freedCls <==> 0 <= k < s.nextCl)
  }

  ghost predicate Inv(s: Pool) {
    ConnsListed(s) && ClsListed(s) && Counted(s) && NoDangling(s) && FreedOnce(s) && s.connNum == |s.connList|
  }

  // ----- eviction

  /** `is_idle`: no collection of the connection is referenced outside its list. */
  ghost predicate Idle(s: Pool, c: ConnId)
    requires c in s.conns
  {
    forall n | n in s.conns[c].cls && s.conns[c].cls[n] in s.cls :: s.cls[s.conns[c].cls[n]].ref <= 1
  }

  ghost predicate Evictable(s: Pool, c: ConnId) {
    c in s.conns && s.conns[c].ref <= 1 && Idle(s, c)
  }

  ghost function Gone(s: Pool): set<ConnId> {
    set c | c in s.conns && Evictable(s, c)
  }

  /** The pool without the given connections and their collections. */
  ghost function Without(s: Pool, gone: set<ConnId>): Pool {
    var cls := set k | k in s.cls && s.cls[k].conn in gone;
    s.(conns := s.conns - gone, cls := s.cls - cls,
       connList := map t | t in s.connList && s.connList[t] !in gone :: s.connList[t],
       freedConns := s.freedConns + gone, freedCls := s.freedCls + cls)
  }

  /** `del_sdb_conn`. */
  ghost function Evict(s: Pool): Pool {
    if s.connNum <= CONN_MAX then s
    else var s' := Without(s, Gone(s)); s'.(connNum := |s'.connList|)
  }

  lemma {:induction false} GoneIsUnheld(s: Pool, c: ConnId)
    requires Inv(s) && Evictable(s, c)
    ensures forall p | p in s.connOf :: s.connOf[p] != c
    ensures forall p | p in s.clOf :: s.cls[s.clOf[p]].conn != c
    ensures forall n | n in s.conns[c].cls :: s.cls[s.conns[c].cls[n]].ref == 1
  {
    forall p | p in s.connOf ensures s.connOf[p] != c {
      HoldersDrop(s.connOf, p, c);
    }
    forall p | p in s.clOf ensures s.cls[s.clOf[p]].conn != c {
      var k := s.clOf[p];
      if s.cls[k].conn == c {
        HoldersDrop(s.clOf, p, k);
      }
    }
  }

  /** Nothing outside the pool points to the connections or their collections. */
  ghost predicate Unheld(s: Pool, gone: set<ConnId>) {
    && (forall p | p in s.connOf :: s.connOf[p] !in gone)
    && (forall p | p in s.clOf && s.clOf[p] in s.cls :: s.cls[s.clOf[p]].conn !in gone)
  }

  lemma {:induction false} GoneAreUnheld(s: Pool)
    requires Inv(s)
    ensures Unheld(s, Gone(s))
  {
    forall p | p in s.connOf ensures s.connOf[p] !in Gone(s) {
      if s.connOf[p] in Gone(s) {
        GoneIsUnheld(s, s.connOf[p]);
      }
    }
    forall p | p in s.clOf && s.clOf[p] in s.cls ensures s.cls[s.clOf[p]].conn !in Gone(s) {
      if s.cls[s.clOf[p]].conn in Gone(s) {
        GoneIsUnheld(s, s.cls[s.clOf[p]].conn);
      }
    }
  }

  lemma {:induction false} WithoutKeepsConns(s: Pool, gone: set<ConnId>)
    requires ConnsListed(s)
    ensures ConnsListed(Without(s, gone))
  {
  }

  lemma {:induction false} WithoutKeepsCls(s: Pool, gone: set<ConnId>)
    requires ClsListed(s)
    ensures ClsListed(Without(s, gone))
  {
    var s' := Without(s, gone);
    forall c, n | c in s'.conns && n in s'.conns[c].cls ensures ListsCl(s', c, n) {
      assert ListsCl(s, c, n);
    }
    forall k | k in s'.cls ensures ClIsListed(s', k) {
      assert ClIsListed(s, k);
    }
  }

  lemma {:induction false} WithoutKeepsPointers(s: Pool, gone: set<ConnId>)
    requires Counted(s) && NoDangling(s) && Unheld(s, gone)
    ensures Counted(Without(s, gone)) && NoDangling(Without(s, gone))
  {
  }

  lemma {:induction false} WithoutFreesOnce(s: Pool, gone: set<ConnId>)
    requires FreedOnce(s) && gone <= s.conns.Keys
    ensures FreedOnce(Without(s, gone))
  {
  }

  /** Eviction keeps every count and every pointer right. */
  lemma {:induction false} EvictKeepsInv(s: Pool)
    requires Inv(s)
    ensures Inv(Evict(s))
  {
    var gone := Gone(s);
    GoneAreUnheld(s);
    WithoutKeepsConns(s, gone);
    WithoutKeepsCls(s, gone);
    WithoutKeepsPointers(s, gone);
    WithoutFreesOnce(s, gone);
    if s.connNum > CONN_MAX {
      var s' := Without(s, gone);
      NumberKeepsRest(s', |s'.connList|);
    }
  }

  lemma {:induction false} NumberKeepsRest(s: Pool, n: int)
    requires ConnsListed(s) && ClsListed(s) && Counted(s) && NoDangling(s) && FreedOnce(s)
    ensures var s' := s.(connNum := n);
            ConnsListed(s') && ClsListed(s') && Counted(s') && NoDangling(s') && FreedOnce(s')
  {
    var s' := s.(connNum := n);
    forall c, n | c in s'.conns && n in s'.conns[c].cls ensures ListsCl(s', c, n) {
      assert ListsCl(s, c, n);
    }
    forall k | k in s'.cls ensures ClIsListed(s', k) {
      assert ClIsListed(s, k);
    }
  }

  /** What one sweep does: of the listed connections exactly those go that the map alone
      holds and whose collections their lists alone hold; they and their collections are
      freed, the others and theirs are untouched, none of that kind is left, and the
      counter is the size of the map. */
  ghost predicate EvictedExactly(s: Pool, s': Pool) {
    && (forall t | t in s.connList :: t !in s'.connList <==> Evictable(s, s.connList[t]))
    && (forall t | t in s'.connList ::
          t in s.connList && StaysWhole(s, s', s.connList[t]) && s'.connList[t] == s.connList[t])
    && (forall t | t in s.connList && t !in s'.connList :: GoesWhole(s, s', s.connList[t]))
    && s'.connOf == s.connOf && s'.clOf == s.clOf && s'.connNum == |s'.connList|
  }

  ghost predicate StaysWhole(s: Pool, s': Pool, c: ConnId) {
    && c in s.conns && c in s'.conns && s'.conns[c] == s.conns[c] && !Evictable(s', c)
    && forall n | n in s.conns[c].cls :: var k := s.conns[c].cls[n]; k in s.cls && k in s'.cls && s'.cls[k] == s.cls[k]
  }

  ghost predicate GoesWhole(s: Pool, s': Pool, c: ConnId) {
    && c in s.conns && c !in s'.conns && c in s'.freedConns
    && forall n | n in s.conns[c].cls :: var k := s.conns[c].cls[n]; k !in s'.cls && k in s'.freedCls
  }

  // ----- pointer operations

  /** Counts aside, the two pools hold the same objects in the same lists. */
  ghost predicate SameShape(s: Pool, s': Pool) {
    && s'.conns.Keys == s.conns.Keys && s'.cls.Keys == s.cls.Keys
    && (forall c | c in s.conns :: s'.conns[c] == s.conns[c].(ref := s'.conns[c].ref))
    && (forall k | k in s.cls :: s'.cls[k] == s.cls[k].(ref := s'.cls[k].ref))
    && s'.connList == s.connList && s'.connNum == s.connNum
    && s'.freedConns == s.freedConns && s'.freedCls == s.freedCls
    && s'.nextConn == s.nextConn && s'.nextCl == s.nextCl
  }

  lemma {:induction false} SameShapeKeepsLists(s: Pool, s': Pool)
    requires ConnsListed(s) && ClsListed(s) && FreedOnce(s) && SameShape(s, s')
    ensures ConnsListed(s') && ClsListed(s') && FreedOnce(s')
  {
    forall c, n | c in s'.conns && n in s'.conns[c].cls ensures ListsCl(s', c, n) {
      assert ListsCl(s, c, n);
    }
    forall k | k in s'.cls ensures ClIsListed(s', k) {
      assert ClIsListed(s, k);
    }
  }

  ghost function WithConnRef(s: Pool, c: ConnId, d: int): Pool
    requires c in s.conns
  {
    s.(conns := s.conns[c := s.conns[c].(ref := s.conns[c].ref + d)])
  }

  ghost function WithClRef(s: Pool, k: ClId, d: int): Pool
    requires k in s.cls
  {
    s.(cls := s.cls[k := s.cls[k].(ref := s.cls[k].ref + d)])
  }

  /** The pointer p is gone and its count is one less. */
  ghost function DroppedConn(s: Pool, p: Slot): Pool
    requires p in s.connOf && s.connOf[p] in s.conns
  {
    WithConnRef(s, s.connOf[p], -1).(connOf := s.connOf - {p})
  }

  ghost function DroppedCl(s: Pool, p: Slot): Pool
    requires p in s.clOf && s.clOf[p] in s.cls
  {
    WithClRef(s, s.clOf[p], -1).(clOf := s.clOf - {p})
  }

  /** `sdb_conn_auto_ptr::clear` on a pointer outside the pool.  The list still holds
      the connection, so the old count is at least 2 and nothing is deleted here; at
      exactly 2 eviction is tried. */
  ghost function ClearConn(s: Pool, p: Slot): Pool
    requires NoDangling(s)
  {
    if p !in s.connOf then s
    else if s.conns[s.connOf[p]].ref == 2 then Evict(DroppedConn(s, p))
    else DroppedConn(s, p)
  }

  /** `sdb_cl_auto_ptr::clear` on a pointer outside the pool. */
  ghost function ClearCl(s: Pool, p: Slot): Pool
    requires NoDangling(s)
  {
    if p !in s.clOf then s
    else if s.cls[s.clOf[p]].ref == 2 then Evict(DroppedCl(s, p))
    else DroppedCl(s, p)
  }

  lemma {:induction false} ConnCounts(s: Pool, s': Pool, p: Slot)
    requires Counted(s) && NoDangling(s) && SameShape(s, s') && s'.cls == s.cls && s'.clOf == s.clOf
    requires p in s.connOf && s'.connOf == s.connOf - {p}
    requires forall c | c in s.conns :: s'.conns[c].ref == s.conns[c].ref - if c == s.connOf[p] then 1 else 0
    ensures Counted(s') && NoDangling(s') && s.conns[s.connOf[p]].ref >= 2
  {
    HoldersDrop(s.connOf, p, s.connOf[p]);
    forall x | x in s.conns ensures s'.conns[x].ref == 1 + Holders(s'.connOf, x) {
      HoldersDrop(s.connOf, p, x);
    }
  }

  lemma {:induction false} ClCounts(s: Pool, s': Pool, p: Slot)
    requires Counted(s) && NoDangling(s) && SameShape(s, s') && s'.conns == s.conns && s'.connOf == s.connOf
    requires p in s.clOf && s'.clOf == s.clOf - {p}
    requires forall k | k in s.cls :: s'.cls[k].ref == s.cls[k].ref - if k == s.clOf[p] then 1 else 0
    ensures Counted(s') && NoDangling(s') && s.cls[s.clOf[p]].ref >= 2
  {
    HoldersDrop(s.clOf, p, s.clOf[p]);
    forall x | x in s.cls ensures s'.cls[x].ref == 1 + Holders(s'.clOf, x) {
      HoldersDrop(s.clOf, p, x);
    }
  }

  lemma {:induction false} ConnRefShape(s: Pool, c: ConnId, d: int, connOf: map<Slot, ConnId>)
    requires c in s.conns
    ensures SameShape(s, WithConnRef(s, c, d).(connOf := connOf))
  {
  }

  lemma {:induction false} ClRefShape(s: Pool, k: ClId, d: int, clOf: map<Slot, ClId>)
    requires k in s.cls
    ensures SameShape(s, WithClRef(s, k, d).(clOf := clOf))
  {
  }

  lemma {:induction false} DropConn(s: Pool, p: Slot)
    requires Inv(s) && p in s.connOf
    ensures Inv(DroppedConn(s, p))
    ensures s.conns[s.connOf[p]].ref >= 2
  {
    var s' := DroppedConn(s, p);
    ConnRefShape(s, s.connOf[p], -1, s.connOf - {p});
    SameShapeKeepsLists(s, s');
    ConnCounts(s, s', p);
  }

  lemma {:induction false} DropCl(s: Pool, p: Slot)
    requires Inv(s) && p in s.clOf
    ensures Inv(DroppedCl(s, p))
    ensures s.cls[s.clOf[p]].ref >= 2
  {
    var s' := DroppedCl(s, p);
    ClRefShape(s, s.clOf[p], -1, s.clOf - {p});
    SameShapeKeepsLists(s, s');
    ClCounts(s, s', p);
  }

  lemma {:induction false} ClearConnKeepsInv(s: Pool, p: Slot)
    requires Inv(s)
    ensures Inv(ClearConn(s, p))
  {
    if p in s.connOf {
      DropConn(s, p);
      if s.conns[s.connOf[p]].ref == 2 {
        EvictKeepsInv(DroppedConn(s, p));
      }
    }
  }

  lemma {:induction false} ClearClKeepsInv(s: Pool, p: Slot)
    requires Inv(s)
    ensures Inv(ClearCl(s, p))
  {
    if p in s.clOf {
      DropCl(s, p);
      if s.cls[s.clOf[p]].ref == 2 {
        EvictKeepsInv(DroppedCl(s, p));
      }
    }
  }

  lemma {:induction false} EvictKeepsPointers(s: Pool)
    ensures Evict(s).connOf == s.connOf && Evict(s).clOf == s.clOf
  {
  }

  lemma {:induction false} ClearConnTouchesOnePointer(s: Pool, p: Slot)
    requires NoDangling(s)
    ensures ClearConn(s, p).connOf == s.connOf - {p} && ClearConn(s, p).clOf == s.clOf
  {
    if p in s.connOf {
      EvictKeepsPointers(DroppedConn(s, p));
    } else {
      RemoveAbsent(s.connOf, p);
    }
  }

  lemma {:induction false} ClearClTouchesOnePointer(s: Pool, p: Slot)
    requires NoDangling(s)
    ensures ClearCl(s, p).clOf == s.clOf - {p} && ClearCl(s, p).connOf == s.connOf
  {
    if p in s.clOf {
      EvictKeepsPointers(DroppedCl(s, p));
    } else {
      RemoveAbsent(s.clOf, p);
    }
  }

  lemma {:induction false} RemoveAbsent<K, V>(m: map<K, V>, k: K)
    requires k !in m
    ensures m - {k} == m
  {
  }

  /** `p = other`, for a pointer that is null. */
  ghost function CopyConn(s: Pool, p: Slot, c: ConnId): Pool
    requires c in s.conns
  {
    WithConnRef(s, c, 1).(connOf := s.connOf[p := c])
  }

  lemma {:induction false} CopyConnKeepsInv(s: Pool, p: Slot, c: ConnId)
    requires Inv(s) && c in s.conns && p !in s.connOf
    ensures Inv(CopyConn(s, p, c))
  {
    var s' := CopyConn(s, p, c);
    ConnRefShape(s, c, 1, s.connOf[p := c]);
    SameShapeKeepsLists(s, s');
    forall x | x in s.conns ensures s'.conns[x].ref == 1 + Holders(s'.connOf, x) {
      HoldersAdd(s.connOf, p, c, x);
    }
  }

  ghost function CopyCl(s: Pool, p: Slot, k: ClId): Pool
    requires k in s.cls
  {
    WithClRef(s, k, 1).(clOf := s.clOf[p := k])
  }

  lemma {:induction false} CopyClKeepsInv(s: Pool, p: Slot, k: ClId)
    requires Inv(s) && k in s.cls && p !in s.clOf
    ensures Inv(CopyCl(s, p, k))
  {
    var s' := CopyCl(s, p, k);
    ClRefShape(s, k, 1, s.clOf[p := k]);
    SameShapeKeepsLists(s, s');
    forall x | x in s.cls ensures s'.cls[x].ref == 1 + Holders(s'.clOf, x) {
      HoldersAdd(s.clOf, p, k, x);
    }
  }

  /** A new connection, held by the map and by p: the temporary copies made on the
      way take the count from 1 up to 4 and down to 2, never from 2 or from 1. */
  ghost function AddConn(s: Pool, p: Slot, t: Tid): Pool {
    var c := s.nextConn;
    s.(conns := s.conns[c := Conn(t, 2, map[])], connList := s.connList[t := c], connNum := s.connNum + 1,
       connOf := s.connOf[p := c], nextConn := c + 1)
  }

  lemma {:induction false} NoHolders<K, V>(m: map<K, V>, v: V)
    requires forall k | k in m :: m[k] != v
    ensures Holders(m, v) == 0
  {
    assert (set k | k in m && m[k] == v) == {};
  }

  lemma {:induction false} AddConnLists(s: Pool, p: Slot, t: Tid)
    requires ConnsListed(s) && ClsListed(s) && FreedOnce(s) && t !in s.connList
    ensures var s' := AddConn(s, p, t); ConnsListed(s') && ClsListed(s') && FreedOnce(s')
  {
    var s' := AddConn(s, p, t);
    forall d, n | d in s'.conns && n in s'.conns[d].cls ensures ListsCl(s', d, n) {
      assert ListsCl(s, d, n);
    }
    forall k | k in s'.cls ensures ClIsListed(s', k) {
      assert ClIsListed(s, k);
    }
  }

  lemma {:induction false} AddConnCounts(s: Pool, p: Slot, t: Tid)
    requires Counted(s) && NoDangling(s) && p !in s.connOf && s.nextConn !in s.conns
    ensures var s' := AddConn(s, p, t); Counted(s') && NoDangling(s')
  {
    var s' := AddConn(s, p, t);
    var c := s.nextConn;
    NoHolders(s.connOf, c);
    forall x | x in s'.conns ensures s'.conns[x].ref == 1 + Holders(s'.connOf, x) {
      HoldersAdd(s.connOf, p, c, x);
    }
  }

  lemma {:induction false} AddConnKeepsInv(s: Pool, p: Slot, t: Tid)
    requires Inv(s) && p !in s.connOf && t !in s.connList
    ensures Inv(AddConn(s, p, t))
  {
    AddConnLists(s, p, t);
    AddConnCounts(s, p, t);
  }

  ghost function AddCl(s: Pool, p: Slot, c: ConnId, name: string): Pool
    requires c in s.conns
  {
    var k := s.nextCl;
    s.(cls := s.cls[k := Cl(2, c, name)], conns := s.conns[c := s.conns[c].(cls := s.conns[c].cls[name := k])],
       clOf := s.clOf[p := k], nextCl := k + 1)
  }

  lemma {:induction false} AddClLists(s: Pool, p: Slot, c: ConnId, name: string)
    requires ClsListed(s) && c in s.conns && name !in s.conns[c].cls && s.nextCl !in s.cls
    ensures ClsListed(AddCl(s, p, c, name))
  {
    var s' := AddCl(s, p, c, name);
    forall d, n | d in s'.conns && n in s'.conns[d].cls ensures ListsCl(s', d, n) {
      assert n in s.conns[d].cls ==> ListsCl(s, d, n);
    }
    forall x | x in s'.cls ensures ClIsListed(s', x) {
      assert x in s.cls ==> ClIsListed(s, x);
    }
  }

  lemma {:induction false} AddClRest(s: Pool, p: Slot, c: ConnId, name: string)
    requires ConnsListed(s) && FreedOnce(s) && c in s.conns
    ensures ConnsListed(AddCl(s, p, c, name)) && FreedOnce(AddCl(s, p, c, name))
  {
  }

  lemma {:induction false} AddClCounts(s: Pool, p: Slot, c: ConnId, name: string)
    requires Counted(s) && NoDangling(s) && p !in s.clOf && c in s.conns && s.nextCl !in s.cls
    ensures var s' := AddCl(s, p, c, name); Counted(s') && NoDangling(s')
  {
    var s' := AddCl(s, p, c, name);
    var k := s.nextCl;
    NoHolders(s.clOf, k);
    forall x | x in s'.cls ensures s'.cls[x].ref == 1 + Holders(s'.clOf, x) {
      HoldersAdd(s.clOf, p, k, x);
    }
  }

  lemma {:induction false} AddClKeepsInv(s: Pool, p: Slot, c: ConnId, name: string)
    requires Inv(s) && p !in s.clOf && c in s.conns && name !in s.conns[c].cls
    ensures Inv(AddCl(s, p, c, name))
  {
    AddClLists(s, p, c, name);
    AddClRest(s, p, c, name);
    AddClCounts(s, p, c, name);
  }

  /** Freed objects stay freed and identities are never reused. */
  ghost predicate Forward(s: Pool, s': Pool) {
    && s.freedConns <= s'.freedConns && s.freedCls <= s'.freedCls
    && s.nextConn <= s'.nextConn && s.nextCl <= s'.nextCl
  }

  lemma {:induction false} EvictGoesForward(s: Pool)
    ensures Forward(s, Evict(s))
  {
  }

  lemma {:induction false} ClearConnGoesForward(s: Pool, p: Slot)
    requires NoDangling(s)
    ensures Forward(s, ClearConn(s, p))
  {
    if p in s.connOf {
      EvictGoesForward(DroppedConn(s, p));
    }
  }

  lemma {:induction false} ClearClGoesForward(s: Pool, p: Slot)
    requires NoDangling(s)
    ensures Forward(s, ClearCl(s, p))
  {
    if p in s.clOf {
      EvictGoesForward(DroppedCl(s, p));
    }
  }

  /** What is left was there before, under the same owner. */
  ghost predicate Remains(s: Pool, s': Pool) {
    && (forall c | c in s'.conns :: c in s.conns && s'.conns[c].tid == s.conns[c].tid)
    && (forall k | k in s'.cls :: k in s.cls && s'.cls[k].conn == s.cls[k].conn && s'.cls[k].name == s.cls[k].name)
  }

  lemma {:induction false} EvictRemains(s: Pool)
    ensures Remains(s, Evict(s))
  {
  }

  lemma {:induction false} SameShapeRemains(s: Pool, s': Pool)
    requires SameShape(s, s')
    ensures Remains(s, s')
  {
  }

  lemma {:induction false} RemainsTrans(s: Pool, s1: Pool, s2: Pool)
    requires Remains(s, s1) && Remains(s1, s2)
    ensures Remains(s, s2)
  {
  }

  lemma {:induction false} DropThenEvictRemains(s: Pool, s1: Pool)
    requires SameShape(s, s1)
    ensures Remains(s, s1) && Remains(s, Evict(s1))
  {
    SameShapeRemains(s, s1);
    EvictRemains(s1);
    RemainsTrans(s, s1, Evict(s1));
  }

  lemma {:induction false} ClearConnRemains(s: Pool, p: Slot)
    requires NoDangling(s)
    ensures Remains(s, ClearConn(s, p))
  {
    if p in s.connOf {
      ConnRefShape(s, s.connOf[p], -1, s.connOf - {p});
      DropThenEvictRemains(s, DroppedConn(s, p));
    }
  }

  lemma {:induction false} ClearClRemains(s: Pool, p: Slot)
    requires NoDangling(s)
    ensures Remains(s, ClearCl(s, p))
  {
    if p in s.clOf {
      ClRefShape(s, s.clOf[p], -1, s.clOf - {p});
      DropThenEvictRemains(s, DroppedCl(s, p));
    }
  }

  // ----- which pointers move

  ghost predicate SameBut<V>(m: map<Slot, V>, m': map<Slot, V>, ps: set<Slot>) {
    forall q: Slot | q !in ps :: (q in m <==> q in m') && (q in m ==> m[q] == m'[q])
  }

  /** Only the connection pointers ps and the collection pointers qs moved. */
  ghost predicate Moves(s: Pool, s': Pool, ps: set<Slot>, qs: set<Slot>) {
    SameBut(s.connOf, s'.connOf, ps) && SameBut(s.clOf, s'.clOf, qs)
  }

  /** Only the pointers of handler h moved, and the local pointer of the operation. */
  ghost predicate OnlyMoves(s: Pool, s': Pool, h: nat) {
    Moves(s, s', {Handler(h), Local}, {Handler(h)})
  }

  lemma {:induction false} MovesTrans(s: Pool, s1: Pool, s2: Pool, ps: set<Slot>, qs: set<Slot>)
    requires Moves(s, s1, ps, qs) && Moves(s1, s2, ps, qs)
    ensures Moves(s, s2, ps, qs)
  {
  }

  lemma {:induction false} DropMoves(s: Pool, s': Pool, p: Slot)
    requires s'.connOf == s.connOf - {p} && s'.clOf == s.clOf
    ensures Moves(s, s', {p}, {}) && p !in s'.connOf
  {
  }

  lemma {:induction false} DropClMoves(s: Pool, s': Pool, p: Slot)
    requires s'.clOf == s.clOf - {p} && s'.connOf == s.connOf
    ensures Moves(s, s', {}, {p}) && p !in s'.clOf
  {
  }

  // ----- when letting go of a pointer empties the pool

  /** A pointer outside the pool holds the connection or one of its collections. */
  ghost predicate HeldOutside(s: Pool, c: ConnId) {
    || (exists q :: q in s.connOf && s.connOf[q] == c)
    || (exists q :: q in s.clOf && s.clOf[q] in s.cls && s.cls[s.clOf[q]].conn == c)
  }

  /** Every connection left is in use. */
  ghost predicate AllHeld(s: Pool) {
    forall c | c in s.conns :: HeldOutside(s, c)
  }

  /** Nothing was freed and nothing left the map. */
  ghost predicate Kept(s: Pool, s': Pool) {
    && s'.conns.Keys == s.conns.Keys && s'.cls.Keys == s.cls.Keys
    && s'.freedConns == s.freedConns && s'.freedCls == s.freedCls
    && s'.connList == s.connList && s'.connNum == s.connNum
  }

  /** There are too many connections and p is the only pointer outside to its own. */
  ghost predicate LastConn(s: Pool, p: Slot) {
    p in s.connOf && s.connNum > CONN_MAX && Holders(s.connOf, s.connOf[p]) == 1
  }

  ghost predicate LastCl(s: Pool, p: Slot) {
    p in s.clOf && s.connNum > CONN_MAX && Holders(s.clOf, s.clOf[p]) == 1
  }

  lemma {:induction false} SomeHolder<K, V>(m: map<K, V>, v: V) returns (k: K)
    requires Holders(m, v) > 0
    ensures k in m && m[k] == v
  {
    k :| k in (set x | x in m && m[x] == v);
  }

  /** What is not evictable is in use. */
  lemma {:induction false} BusyIsHeld(s: Pool, c: ConnId)
    requires Inv(s) && c in s.conns && !Evictable(s, c)
    ensures HeldOutside(s, c)
  {
    if s.conns[c].ref > 1 {
      var q := SomeHolder(s.connOf, c);
    } else {
      var n :| n in s.conns[c].cls && s.conns[c].cls[n] in s.cls && s.cls[s.conns[c].cls[n]].ref > 1;
      assert ListsCl(s, c, n);
      var q := SomeHolder(s.clOf, s.conns[c].cls[n]);
    }
  }

  lemma {:induction false} EvictLeavesHeld(s: Pool)
    requires Inv(s) && s.connNum > CONN_MAX
    ensures AllHeld(Evict(s))
  {
    var s' := Evict(s);
    EvictKeepsInv(s);
    EvictKeepsPointers(s);
    EvictRemains(s);
    forall c | c in s'.conns ensures HeldOutside(s', c) {
      BusyIsHeld(s, c);
    }
  }

  lemma {:induction false} SameShapeIsKept(s: Pool, s': Pool)
    requires SameShape(s, s')
    ensures Kept(s, s')
  {
  }

  lemma {:induction false} EvictIfTooMany(s: Pool, s1: Pool)
    requires Inv(s1) && Kept(s, s1)
    ensures if s.connNum > CONN_MAX then AllHeld(Evict(s1)) else Kept(s, Evict(s1))
  {
    if s.connNum > CONN_MAX {
      EvictLeavesHeld(s1);
    }
  }

  lemma {:induction false} DroppedConnIsKept(s: Pool, p: Slot)
    requires Inv(s) && p in s.connOf
    ensures Inv(DroppedConn(s, p)) && Kept(s, DroppedConn(s, p))
  {
    DropConn(s, p);
    ConnRefShape(s, s.connOf[p], -1, s.connOf - {p});
    SameShapeIsKept(s, DroppedConn(s, p));
  }

  lemma {:induction false} DroppedClIsKept(s: Pool, p: Slot)
    requires Inv(s) && p in s.clOf
    ensures Inv(DroppedCl(s, p)) && Kept(s, DroppedCl(s, p))
  {
    DropCl(s, p);
    ClRefShape(s, s.clOf[p], -1, s.clOf - {p});
    SameShapeIsKept(s, DroppedCl(s, p));
  }

  lemma {:induction false} LastConnHasCountTwo(s: Pool, p: Slot)
    requires Counted(s) && NoDangling(s) && p in s.connOf
    ensures LastConn(s, p) <==> s.connNum > CONN_MAX && s.conns[s.connOf[p]].ref == 2
  {
  }

  lemma {:induction false} LastClHasCountTwo(s: Pool, p: Slot)
    requires Counted(s) && NoDangling(s) && p in s.clOf
    ensures LastCl(s, p) <==> s.connNum > CONN_MAX && s.cls[s.clOf[p]].ref == 2
  {
  }

  lemma {:induction false} ClearConnSweeps(s: Pool, p: Slot)
    requires Inv(s)
    ensures if LastConn(s, p) then AllHeld(ClearConn(s, p)) else Kept(s, ClearConn(s, p))
  {
    if p in s.connOf {
      LastConnHasCountTwo(s, p);
      DroppedConnIsKept(s, p);
      if s.conns[s.connOf[p]].ref == 2 {
        EvictIfTooMany(s, DroppedConn(s, p));
      }
    }
  }

  lemma {:induction false} ClearClSweeps(s: Pool, p: Slot)
    requires Inv(s)
    ensures if LastCl(s, p) then AllHeld(ClearCl(s, p)) else Kept(s, ClearCl(s, p))
  {
    if p in s.clOf {
      LastClHasCountTwo(s, p);
      DroppedClIsKept(s, p);
      if s.cls[s.clOf[p]].ref == 2 {
        EvictIfTooMany(s, DroppedCl(s, p));
      }
    }
  }

  /** Letting go of one of several pointers to a connection leaves it in use. */
  lemma {:induction false} StillHeld(s: Pool, s': Pool, p: Slot)
    requires AllHeld(s) && Kept(s, s') && Remains(s, s') && s'.connOf == s.connOf - {p} && s'.clOf == s.clOf
    requires p in s.connOf ==> Holders(s.connOf, s.connOf[p]) > 1
    ensures AllHeld(s')
  {
    forall c | c in s'.conns ensures HeldOutside(s', c) {
      assert HeldOutside(s, c);
      if p in s.connOf && s.connOf[p] == c {
        HoldersDrop(s.connOf, p, c);
        var q := SomeHolder(s'.connOf, c);
      } else if q :| q in s.connOf && s.connOf[q] == c {
        assert q in s'.connOf && s'.connOf[q] == c;
      } else {
        var q :| q in s.clOf && s.clOf[q] in s.cls && s.cls[s.clOf[q]].conn == c;
        assert s'.clOf[q] in s'.cls;
      }
    }
  }

  // ----- handler operations

  /** `clear` of a connection pointer, with what it keeps. */
  ghost function LetGo(s: Pool, p: Slot): (s': Pool)
    requires Inv(s)
    ensures Inv(s') && Forward(s, s') && Remains(s, s') && s'.connOf == s.connOf - {p} && s'.clOf == s.clOf
    ensures Moves(s, s', {p}, {})
    ensures if LastConn(s, p) then AllHeld(s') else Kept(s, s')
  {
    ClearConnSweeps(s, p);
    ClearConnTouchesOnePointer(s, p);
    DropMoves(s, ClearConn(s, p), p);
    ClearConnRemains(s, p);
    ClearConnKeepsInv(s, p);
    ClearConnGoesForward(s, p);
    ClearConn(s, p)
  }

  ghost function LetGoCl(s: Pool, p: Slot): (s': Pool)
    requires Inv(s)
    ensures Inv(s') && Forward(s, s') && Remains(s, s') && s'.clOf == s.clOf - {p} && s'.connOf == s.connOf
    ensures Moves(s, s', {}, {p})
    ensures if LastCl(s, p) then AllHeld(s') else Kept(s, s')
  {
    ClearClSweeps(s, p);
    ClearClTouchesOnePointer(s, p);
    DropClMoves(s, ClearCl(s, p), p);
    ClearClRemains(s, p);
    ClearClKeepsInv(s, p);
    ClearClGoesForward(s, p);
    ClearCl(s, p)
  }

  /** A null pointer p gets the thread's connection, a new one if it has none.  A new
      connection enters the map whether or not connecting succeeds. */
  ghost function FindConn(s: Pool, p: Slot, t: Tid): Pool
    requires ConnsListed(s)
  {
    if t in s.connList then CopyConn(s, p, s.connList[t]) else AddConn(s, p, t)
  }

  /** The pointer holds the connection of thread t. */
  ghost predicate HasConn(s: Pool, p: Slot, t: Tid) {
    && p in s.connOf && t in s.connList && s.connOf[p] == s.connList[t]
    && s.connOf[p] in s.conns && s.conns[s.connOf[p]].tid == t
  }

  lemma {:induction false} FindConnKeepsInv(s: Pool, p: Slot, t: Tid)
    requires Inv(s) && p !in s.connOf
    ensures Inv(FindConn(s, p, t)) && HasConn(FindConn(s, p, t), p, t)
  {
    if t in s.connList {
      CopyConnKeepsInv(s, p, s.connList[t]);
    } else {
      AddConnKeepsInv(s, p, t);
    }
  }

  lemma {:induction false} FindConnMoves(s: Pool, p: Slot, t: Tid)
    requires ConnsListed(s)
    ensures Moves(s, FindConn(s, p, t), {p}, {}) && Forward(s, FindConn(s, p, t))
  {
  }

  /** `get_sdb_conn`. */
  ghost function GetConn(s: Pool, p: Slot, t: Tid): (s': Pool)
    requires Inv(s)
    ensures Inv(s') && Forward(s, s') && HasConn(s', p, t) && Moves(s, s', {p}, {})
  {
    var s1 := LetGo(s, p);
    FindConnKeepsInv(s1, p, t);
    FindConnMoves(s1, p, t);
    MovesTrans(s, s1, FindConn(s1, p, t), {p}, {});
    FindConn(s1, p, t)
  }

  /** A collection object that was made, failed to initialise and was deleted. */
  ghost function FailCl(s: Pool): Pool {
    s.(freedCls := s.freedCls + {s.nextCl}, nextCl := s.nextCl + 1)
  }

  lemma {:induction false} FailClLists(s: Pool)
    requires ConnsListed(s) && ClsListed(s)
    ensures ConnsListed(FailCl(s)) && ClsListed(FailCl(s))
  {
    var s' := FailCl(s);
    forall c, n | c in s'.conns && n in s'.conns[c].cls ensures ListsCl(s', c, n) {
      assert ListsCl(s, c, n);
    }
    forall k | k in s'.cls ensures ClIsListed(s', k) {
      assert ClIsListed(s, k);
    }
  }

  lemma {:induction false} FailClRest(s: Pool)
    requires Counted(s) && NoDangling(s) && FreedOnce(s)
    ensures Counted(FailCl(s)) && NoDangling(FailCl(s)) && FreedOnce(FailCl(s))
  {
  }

  /** A null pointer p gets the named collection of connection c; `ok` is whether a
      new collection object initialises. */
  ghost function FindCl(s: Pool, p: Slot, c: ConnId, name: string, ok: bool): Pool
    requires ClsListed(s) && c in s.conns
  {
    if name in s.conns[c].cls then assert ListsCl(s, c, name); CopyCl(s, p, s.conns[c].cls[name])
    else if ok then AddCl(s, p, c, name)
    else FailCl(s)
  }

  /** The pointer holds the named collection of connection c, or nothing. */
  ghost predicate HasCl(s: Pool, p: Slot, c: ConnId, name: string, sure: bool) {
    && (sure ==> p in s.clOf)
    && (p in s.clOf ==> s.clOf[p] in s.cls && s.cls[s.clOf[p]].conn == c && s.cls[s.clOf[p]].name == name)
  }

  lemma {:induction false} FindClKeepsInv(s: Pool, p: Slot, c: ConnId, name: string, ok: bool)
    requires Inv(s) && c in s.conns && p !in s.clOf
    ensures Inv(FindCl(s, p, c, name, ok)) && FindCl(s, p, c, name, ok).connOf == s.connOf
    ensures c in FindCl(s, p, c, name, ok).conns && FindCl(s, p, c, name, ok).conns[c].tid == s.conns[c].tid
    ensures HasCl(FindCl(s, p, c, name, ok), p, c, name, ok)
  {
    if name in s.conns[c].cls {
      assert ListsCl(s, c, name);
      CopyClKeepsInv(s, p, s.conns[c].cls[name]);
    } else if ok {
      AddClKeepsInv(s, p, c, name);
    } else {
      FailClLists(s);
      FailClRest(s);
    }
  }

  lemma {:induction false} FindClMoves(s: Pool, p: Slot, c: ConnId, name: string, ok: bool)
    requires ClsListed(s) && c in s.conns
    ensures Moves(s, FindCl(s, p, c, name, ok), {}, {p}) && Forward(s, FindCl(s, p, c, name, ok))
  {
  }

  /** `get_cl` through the connection that `via` holds. */
  ghost function GetCl(s: Pool, p: Slot, via: Slot, name: string, ok: bool): (s': Pool)
    requires Inv(s) && via in s.connOf
    ensures Inv(s') && Forward(s, s') && s'.connOf == s.connOf
    ensures s'.conns[s.connOf[via]].tid == s.conns[s.connOf[via]].tid
    ensures HasCl(s', p, s.connOf[via], name, ok) && Moves(s, s', {}, {p})
  {
    var s1 := LetGoCl(s, p);
    FindClKeepsInv(s1, p, s1.connOf[via], name, ok);
    FindClMoves(s1, p, s1.connOf[via], name, ok);
    MovesTrans(s, s1, FindCl(s1, p, s1.connOf[via], name, ok), {}, {p});
    FindCl(s1, p, s1.connOf[via], name, ok)
  }

  lemma {:induction false} GetClUnfolds(s: Pool, p: Slot, via: Slot, name: string, ok: bool)
    requires Inv(s) && via in s.connOf
    ensures var s1 := LetGoCl(s, p); GetCl(s, p, via, name, ok) == FindCl(s1, p, s1.connOf[via], name, ok)
  {
  }

  lemma {:induction false} CopyConnRemains(s: Pool, s1: Pool, p: Slot, c: ConnId)
    requires Remains(s, s1) && c in s1.conns && s1.connOf == s.connOf - {p}
    ensures Remains(s, CopyConn(s1, p, c)) && CopyConn(s1, p, c).connOf == s.connOf[p := c]
  {
    var s2 := CopyConn(s1, p, c);
    ConnRefShape(s1, c, 1, s1.connOf[p := c]);
    SameShapeRemains(s1, s2);
    RemainsTrans(s, s1, s2);
  }

  /** `connection = conn_tmp`. */
  ghost function Assign(s: Pool, p: Slot, q: Slot): (s': Pool)
    requires Inv(s) && q in s.connOf && p != q
    ensures Inv(s') && Forward(s, s') && Remains(s, s')
    ensures s'.connOf == s.connOf[p := s.connOf[q]] && s'.clOf == s.clOf && Moves(s, s', {p}, {})
  {
    var s1 := LetGo(s, p);
    CopyConnKeepsInv(s1, p, s1.connOf[q]);
    CopyConnRemains(s, s1, p, s1.connOf[q]);
    CopyConn(s1, p, s1.connOf[q])
  }

  /** What MySQL may ask of the pool, with the answers of the server: whether
      connecting, opening the collection and dropping it succeed. */
  datatype Op =
    | OpenTable(h: nat, t: Tid, name: string, connOk: bool, clOk: bool)
    | CloseTable(h: nat)
    | CheckThread(h: nat, t: Tid, name: string, connOk: bool, clOk: bool)
    | DeleteTable(h: nat, t: Tid, name: string, connOk: bool, clOk: bool, dropOk: bool)
    | EndTxn(t: Tid)

  /** The handler works on the named collection over the connection of thread t. */
  ghost predicate Serves(s: Pool, h: nat, t: Tid, name: string) {
    && HasConn(s, Handler(h), t)
    && HasCl(s, Handler(h), s.connOf[Handler(h)], name, true)
  }

  /** The end of a switch: the handler's collection is over the local connection of
      thread t, the handler takes that connection and the local pointer lets go.  The
      evictions these may start do not take away what the handler holds. */
  lemma {:induction false} AssignedServes(s2: Pool, s3: Pool, s4: Pool, h: nat, t: Tid, name: string)
    requires Local in s2.connOf && s2.connOf[Local] in s2.conns && s2.conns[s2.connOf[Local]].tid == t
    requires HasCl(s2, Handler(h), s2.connOf[Local], name, true)
    requires Remains(s2, s3) && s3.clOf == s2.clOf && s3.connOf == s2.connOf[Handler(h) := s2.connOf[Local]]
    requires Remains(s3, s4) && s4.clOf == s3.clOf && s4.connOf == s3.connOf - {Local}
    requires ConnsListed(s4) && NoDangling(s4)
    ensures Serves(s4, h, t, name)
  {
    RemainsTrans(s2, s3, s4);
    assert s4.connOf[Handler(h)] == s2.connOf[Local];
    assert s4.clOf[Handler(h)] in s4.cls;
  }

  /** The pointers that move in an operation that fetches a connection into the local
      pointer, a collection into the handler, perhaps its connection, and lets go. */
  lemma {:induction false} FourMoves(s: Pool, s1: Pool, s2: Pool, s3: Pool, s4: Pool, h: nat)
    requires Moves(s, s1, {Local}, {}) && Moves(s1, s2, {}, {Handler(h)})
    requires Moves(s2, s3, {Handler(h)}, {Handler(h)}) && Moves(s3, s4, {Local}, {})
    ensures OnlyMoves(s, s4, h)
    ensures SameBut(s2.connOf, s3.connOf, {}) ==> SameBut(s.connOf, s4.connOf, {Local})
  {
  }

  /** The handler switches to the connection of thread t, and then works for it. */
  ghost function Switch(s: Pool, h: nat, t: Tid, name: string, connOk: bool, clOk: bool): (s': Pool)
    requires Inv(s)
    ensures Inv(s') && Forward(s, s')
    ensures connOk && clOk ==> Serves(s', h, t, name)
    ensures OnlyMoves(s, s', h)
    ensures !connOk ==> Moves(s, s', {Local}, {})
  {
    var s1 := GetConn(s, Local, t);
    if !connOk then FourMoves(s, s1, s1, s1, LetGo(s1, Local), h); LetGo(s1, Local)
    else
      var s2 := GetCl(s1, Handler(h), Local, name, clOk);
      if Handler(h) !in s2.clOf then FourMoves(s, s1, s2, s2, LetGo(s2, Local), h); LetGo(s2, Local)
      else
        var s3 := Assign(s2, Handler(h), Local);
        var s4 := LetGo(s3, Local);
        AssignedServes(s2, s3, s4, h, t, name);
        FourMoves(s, s1, s2, s3, s4, h);
        s4
  }

  lemma {:induction false} TwoMoves(s: Pool, s1: Pool, s2: Pool, h: nat)
    requires Moves(s, s1, {Handler(h)}, {Handler(h)}) && Moves(s1, s2, {Handler(h)}, {Handler(h)})
    ensures OnlyMoves(s, s2, h)
  {
  }

  /** `open`. */
  ghost function Opened(s: Pool, h: nat, t: Tid, name: string, connOk: bool, clOk: bool): (s': Pool)
    requires Inv(s)
    ensures Inv(s') && Forward(s, s')
    ensures connOk && clOk ==> Serves(s', h, t, name)
    ensures OnlyMoves(s, s', h) && HasConn(s', Handler(h), t)
    ensures !connOk ==> SameBut(s.clOf, s'.clOf, {})
  {
    var s1 := GetConn(s, Handler(h), t);
    var s2 := if connOk then GetCl(s1, Handler(h), Handler(h), name, clOk) else s1;
    TwoMoves(s, s1, s2, h);
    s2
  }

  lemma {:induction false} CloseSweeps(s: Pool, s1: Pool, s2: Pool, p: Slot)
    requires s1.connOf == s.connOf && Remains(s1, s2) && s2.connOf == s1.connOf - {p} && s2.clOf == s1.clOf
    requires if LastCl(s, p) then AllHeld(s1) else Kept(s, s1)
    requires if LastConn(s1, p) then AllHeld(s2) else Kept(s1, s2)
    requires p in s1.connOf ==> Holders(s1.connOf, s1.connOf[p]) >= 1
    ensures LastCl(s, p) || LastConn(s, p) ==> s2.connNum <= CONN_MAX || AllHeld(s2)
    ensures LastConn(s, p) && !LastCl(s, p) ==> AllHeld(s2)
    ensures !LastCl(s, p) && !LastConn(s, p) ==> Kept(s, s2)
  {
    if LastCl(s, p) && !LastConn(s1, p) && s1.connNum > CONN_MAX {
      StillHeld(s1, s2, p);
    }
  }

  lemma {:induction false} PointerCounts(m: map<Slot, ConnId>, p: Slot)
    requires p in m
    ensures Holders(m, m[p]) >= 1
  {
    HoldersDrop(m, p, m[p]);
  }

  /** `close`: first the collection, then the connection; the handler holds nothing then.
      If one of them was the last pointer to its object and there are too many
      connections, every connection left is in use or there are no longer too many. */
  ghost function Closed(s: Pool, h: nat): (s': Pool)
    requires Inv(s)
    ensures Inv(s') && Forward(s, s') && OnlyMoves(s, s', h)
    ensures Handler(h) !in s'.connOf && Handler(h) !in s'.clOf
    ensures LastCl(s, Handler(h)) || LastConn(s, Handler(h)) ==> s'.connNum <= CONN_MAX || AllHeld(s')
    ensures LastConn(s, Handler(h)) && !LastCl(s, Handler(h)) ==> AllHeld(s')
    ensures !LastCl(s, Handler(h)) && !LastConn(s, Handler(h)) ==> Kept(s, s')
  {
    var s1 := LetGoCl(s, Handler(h));
    var s2 := LetGo(s1, Handler(h));
    TwoMoves(s, s1, s2, h);
    if Handler(h) in s1.connOf then PointerCounts(s1.connOf, Handler(h)); CloseSweeps(s, s1, s2, Handler(h)); s2
    else CloseSweeps(s, s1, s2, Handler(h)); s2
  }

  /** The handler's collection belongs to the connection of thread t. */
  ghost predicate OnThread(s: Pool, h: nat, t: Tid)
    requires NoDangling(s)
  {
    Handler(h) in s.clOf && s.conns[s.cls[s.clOf[Handler(h)]].conn].tid == t
  }

  /** `check_thread`: the collection used from then on belongs to the connection of the
      calling thread, whoever opened the handler. */
  ghost function Checked(s: Pool, h: nat, t: Tid, name: string, connOk: bool, clOk: bool): (s': Pool)
    requires Inv(s)
    ensures Inv(s') && Forward(s, s')
    ensures OnThread(s, h, t) ==> s' == s
    ensures connOk && clOk ==>
              Handler(h) in s'.clOf && t in s'.connList && s'.cls[s'.clOf[Handler(h)]].conn == s'.connList[t]
    ensures OnlyMoves(s, s', h)
  {
    if OnThread(s, h, t) then s
    else Switch(s, h, t, name, connOk, clOk)
  }

  /** `delete_table`: the handler's connection stays as it is; its collection is let go
      when the drop succeeds, and is the one that could not be dropped otherwise. */
  ghost function Deleted(s: Pool, h: nat, t: Tid, name: string, connOk: bool, clOk: bool, dropOk: bool): (s': Pool)
    requires Inv(s)
    ensures Inv(s') && Forward(s, s') && OnlyMoves(s, s', h)
    ensures SameBut(s.connOf, s'.connOf, {Local}) && Local !in s'.connOf
    ensures !connOk ==> SameBut(s.clOf, s'.clOf, {})
    ensures connOk && dropOk ==> Handler(h) !in s'.clOf
    ensures connOk && clOk && !dropOk ==> Handler(h) in s'.clOf
    ensures connOk && Handler(h) in s'.clOf ==> s'.cls[s'.clOf[Handler(h)]].name == name
  {
    var s1 := GetConn(s, Local, t);
    var s2 := if connOk then GetCl(s1, Handler(h), Local, name, clOk) else s1;
    var s3 := if connOk && Handler(h) in s2.clOf && dropOk then LetGoCl(s2, Handler(h)) else s2;
    var s4 := LetGo(s3, Local);
    FourMoves(s, s1, s2, s3, s4, h);
    s4
  }

  /** `sdb_commit`, `sdb_rollback`: the thread's connection is looked up and let go. */
  ghost function LookedUp(s: Pool, t: Tid): (s': Pool)
    requires Inv(s)
    ensures Inv(s') && Forward(s, s') && Moves(s, s', {Local}, {}) && Local !in s'.connOf
  {
    MovesTrans(s, GetConn(s, Local, t), LetGo(GetConn(s, Local, t), Local), {Local}, {});
    LetGo(GetConn(s, Local, t), Local)
  }

  /** What each operation is for. */
  ghost predicate Did(s: Pool, s': Pool, op: Op) {
    match op
    case OpenTable(h, t, name, connOk, clOk) =>
      OnlyMoves(s, s', h) && HasConn(s', Handler(h), t) && (connOk && clOk ==> Serves(s', h, t, name))
    case CloseTable(h) => OnlyMoves(s, s', h) && Handler(h) !in s'.connOf && Handler(h) !in s'.clOf
    case CheckThread(h, t, name, connOk, clOk) =>
      OnlyMoves(s, s', h) && (connOk && clOk ==> NoDangling(s') && OnThread(s', h, t))
    case DeleteTable(h, t, name, connOk, clOk, dropOk) =>
      OnlyMoves(s, s', h) && (connOk && dropOk ==> Handler(h) !in s'.clOf)
    case EndTxn(t) => Moves(s, s', {Local}, {})
  }

  ghost function Step(s: Pool, op: Op): (s': Pool)
    requires Inv(s)
    ensures Inv(s') && Forward(s, s') && Did(s, s', op)
  {
    match op
    case OpenTable(h, t, name, connOk, clOk) => Opened(s, h, t, name, connOk, clOk)
    case CloseTable(h) => Closed(s, h)
    case CheckThread(h, t, name, connOk, clOk) => Checked(s, h, t, name, connOk, clOk)
    case DeleteTable(h, t, name, connOk, clOk, dropOk) => Deleted(s, h, t, name, connOk, clOk, dropOk)
    case EndTxn(t) => LookedUp(s, t)
  }

  ghost function Run(s: Pool, ops: seq<Op>): (s': Pool)
    requires Inv(s)
    ensures Inv(s') && Forward(s, s')
    decreases |ops|
  {
    if ops == [] then s else Run(Step(s, ops[0]), ops[1..])
  }

  /** Pool safety over every run, spelled out for one point of it: the collection a
      handler holds is live, its connection is live and in the map under its thread,
      both counts are the number of holders, and what an earlier point had freed is
      not held. */
  lemma {:induction false} HeldCollectionIsAlive(before: seq<Op>, after: seq<Op>, h: nat)
    ensures var s := Run(Empty, before + after);
            Handler(h) in s.clOf ==>
              var k := s.clOf[Handler(h)];
              && k in s.cls && s.cls[k].conn in s.conns
              && s.connList[s.conns[s.cls[k].conn].tid] == s.cls[k].conn
              && s.cls[k].ref == 1 + Holders(s.clOf, k) >= 2
              && s.conns[s.cls[k].conn].ref == 1 + Holders(s.connOf, s.cls[k].conn)
              && k !in Run(Empty, before).freedCls && s.cls[k].conn !in Run(Empty, before).freedConns
  {
    RunConcat(Empty, before, after);
    var s := Run(Empty, before + after);
    if Handler(h) in s.clOf {
      HoldersDrop(s.clOf, Handler(h), s.clOf[Handler(h)]);
    }
  }

  /** At every point of a run the next operation does what it is for. */
  lemma {:induction false} RunDoes(s: Pool, before: seq<Op>, op: Op)
    requires Inv(s)
    ensures Did(Run(s, before), Run(s, before + [op]), op)
  {
    RunConcat(s, before, [op]);
    assert [op][1..] == [];
  }

  lemma {:induction false} RunConcat(s: Pool, a: seq<Op>, b: seq<Op>)
    requires Inv(s)
    ensures Run(s, a + b) == Run(Run(s, a), b)
    decreases |a|
  {
    if a == [] {
      assert a + b == b;
    } else {
      assert (a + b)[1..] == a[1..] + b;
      RunConcat(Step(s, a[0]), a[1..], b);
    }
  }
}
