/** From a key interval to a match object, part by part, and what each condition keeps
    (driver/mysql/ha_sdb.cc, build_match_obj_by_start_stop_key). */
module IndexRange {
  import opened Options
  import opened Sql
  import opened Match
  import opened IndexKey

  // ----- what the loop builds

  function At(vals: seq<Value>, i: nat): Option<Value> {
    if i < |vals| then Some(vals[i]) else None
  }

  function Bound(p: KeyPart, op: CmpOp, k: Option<Value>): seq<Matcher> {
    if k.Some? && Appended(p, k.value).Some? then [ColVal(p.col, op, Appended(p, k.value).value)] else []
  }

  function PartMatch(p: KeyPart, s: Option<Value>, e: Option<Value>, exact: bool): seq<Matcher> {
    if exact then Bound(p, Eq, s) else Bound(p, Ge, s) + Bound(p, Le, e)
  }

  /** The conditions from part i on.  `start` and `end` hold the values of the leading
      parts each key gives; `exact` is HA_READ_KEY_EXACT. */
  function RangeMatch(parts: seq<KeyPart>, start: seq<Value>, end: seq<Value>, exact: bool, i: nat): seq<Matcher>
    decreases |parts| - i
  {
    if i >= |parts| || (i >= |start| && i >= |end|) then []
    else PartMatch(parts[i], At(start, i), At(end, i), exact) + RangeMatch(parts, start, end, exact, i + 1)
  }

  // ----- the bytes of a key

  function Offset(parts: seq<KeyPart>, i: nat): nat
    requires i <= |parts|
  {
    if i == 0 then 0 else Offset(parts, i - 1) + StoreLength(parts[i - 1])
  }

  /** The buffer holds the given leading parts one after the other. */
  ghost predicate EncodesKey(parts: seq<KeyPart>, vals: seq<Value>, key: seq<Byte>) {
    |vals| <= |parts| && forall i | 0 <= i < |vals| :: EncodesPartOf(parts, vals, key, i)
  }

  ghost predicate EncodesPartOf(parts: seq<KeyPart>, vals: seq<Value>, key: seq<Byte>, i: nat)
    requires i < |vals| <= |parts|
  {
    var at, n := Offset(parts, i), StoreLength(parts[i]);
    at + n <= |key| && Encodes(parts[i], vals[i], key[at..at + n])
  }

  /** The key part map of k leading parts. */
  function Ones(k: nat): nat {
    if k == 0 then 0 else 1 + 2 * Ones(k - 1)
  }

  lemma {:induction false} ShiftOnes(k: nat)
    ensures Ones(k) / 2 == Ones(if k == 0 then 0 else k - 1) && Ones(k) % 2 == (if k == 0 then 0 else 1)
    ensures Ones(k) == 0 <==> k == 0
  {
  }

  /** How many of the leading parts are at i or later. */
  function Left(vals: seq<Value>, i: nat): nat {
    if i < |vals| then |vals| - i else 0
  }

  lemma {:induction false} MapStep(vals: seq<Value>, i: nat)
    ensures Ones(Left(vals, i)) / 2 == Ones(Left(vals, i + 1))
    ensures Ones(Left(vals, i)) % 2 == 1 <==> At(vals, i).Some?
    ensures Ones(Left(vals, i)) == 0 <==> i >= |vals|
  {
    ShiftOnes(Left(vals, i));
  }

  lemma {:induction false} PartBytes(parts: seq<KeyPart>, vals: seq<Value>, key: seq<Byte>, i: nat, at: nat)
    requires EncodesKey(parts, vals, key) && i < |parts| && at == Offset(parts, i)
    ensures At(vals, i).Some? ==>
              at + StoreLength(parts[i]) <= |key| && Encodes(parts[i], vals[i], key[at..at + StoreLength(parts[i])])
    ensures Offset(parts, i + 1) == at + StoreLength(parts[i])
  {
    assert i < |vals| ==> EncodesPartOf(parts, vals, key, i);
  }

  lemma {:induction false} RangeStep(parts: seq<KeyPart>, start: seq<Value>, end: seq<Value>, exact: bool,
                                     i: nat, obj: seq<Matcher>)
    requires i < |parts| && (i < |start| || i < |end|)
    ensures obj + RangeMatch(parts, start, end, exact, i) ==
            obj + PartMatch(parts[i], At(start, i), At(end, i), exact) + RangeMatch(parts, start, end, exact, i + 1)
  {
    var part := PartMatch(parts[i], At(start, i), At(end, i), exact);
    var rest := RangeMatch(parts, start, end, exact, i + 1);
    assert obj + (part + rest) == obj + part + rest;
  }

  /** `get_signed_key_val`, `get_unsigned_key_val`: nothing is read unless the map says
      the part is there and its NULL flag is clear. */
  method KeyVal(key: seq<Byte>, at: nat, map0: nat, p: KeyPart,
                ghost parts: seq<KeyPart>, ghost vals: seq<Value>, ghost i: nat)
    returns (r: Value)
    requires EncodesKey(parts, vals, key) && i < |parts| && p == parts[i] && at == Offset(parts, i)
    requires map0 == Ones(Left(vals, i))
    ensures r == if i < |vals| then Appended(p, vals[i]) else None
  {
    MapStep(vals, i);
    PartBytes(parts, vals, key, i, at);
    r := None;
    if p.len > 8 || p.kind.Other? {
      return;
    }
    if map0 % 2 == 1 && (!p.nullable || key[at] == 0) {
      var store := key[at..at + StoreLength(p)];
      var bs := key[at + StoreLength(p) - p.len..at + StoreLength(p)];
      assert bs == store[|store| - p.len..];
      if p.kind.Signed? {
        SignedRoundTrip(p, vals[i].value, store);
        r := SignedKeyVal(bs);
      } else {
        r := UnsignedKeyVal(bs);
      }
    }
  }

  /** `get_*_key_range_obj` for one part. */
  method KeyRangeObj(key: seq<Byte>, at: nat, map0: nat, exact: bool, endKey: seq<Byte>, endAt: nat, endMap: nat,
                     p: KeyPart, ghost parts: seq<KeyPart>, ghost start: seq<Value>, ghost end: seq<Value>,
                     ghost i: nat)
    returns (obj: seq<Matcher>)
    requires i < |parts| && p == parts[i] && at == endAt == Offset(parts, i)
    requires EncodesKey(parts, start, key) && map0 == Ones(Left(start, i))
    requires EncodesKey(parts, end, endKey) && endMap == Ones(Left(end, i))
    ensures obj == PartMatch(p, At(start, i), At(end, i), exact)
  {
    obj := [];
    var v := KeyVal(key, at, map0, p, parts, start, i);
    if exact {
      if v.Some? {
        obj := [ColVal(p.col, Eq, v.value)];
      }
      return;
    }
    if v.Some? {
      obj := [ColVal(p.col, Ge, v.value)];
    }
    var w := KeyVal(endKey, endAt, endMap, p, parts, end, i);
    if w.Some? {
      obj := obj + [ColVal(p.col, Le, w.value)];
    }
  }

  /** The loop over the key parts: both pointers advance by the stored length of each
      part and both maps are shifted, so every part reads its own bytes. */
  method BuildMatchObj(parts: seq<KeyPart>, key: seq<Byte>, keypartMap: nat, exact: bool,
                       endKey: seq<Byte>, endKeypartMap: nat, ghost start: seq<Value>, ghost end: seq<Value>)
    returns (obj: seq<Matcher>)
    requires EncodesKey(parts, start, key) && keypartMap == Ones(|start|)
    requires EncodesKey(parts, end, endKey) && endKeypartMap == Ones(|end|)
    ensures obj == RangeMatch(parts, start, end, exact, 0)
  {
    obj := [];
    var startMap, endMap := keypartMap, endKeypartMap;
    var startAt, endAt := 0, 0;
    var i := 0;
    assert [] + RangeMatch(parts, start, end, exact, 0) == RangeMatch(parts, start, end, exact, 0);
    MapStep(start, 0);
    MapStep(end, 0);
    while i < |parts| && (startMap != 0 || endMap != 0)
      invariant 0 <= i <= |parts| && startAt == Offset(parts, i) && endAt == Offset(parts, i)
      invariant startMap == Ones(Left(start, i)) && endMap == Ones(Left(end, i))
      invariant obj + RangeMatch(parts, start, end, exact, i) == RangeMatch(parts, start, end, exact, 0)
    {
      MapStep(start, i);
      MapStep(end, i);
      RangeStep(parts, start, end, exact, i, obj);
      var tmp := KeyRangeObj(key, startAt, startMap, exact, endKey, endAt, endMap, parts[i], parts, start, end, i);
      obj := obj + tmp;
      startAt := startAt + StoreLength(parts[i]);
      endAt := endAt + StoreLength(parts[i]);
      startMap := startMap / 2;
      endMap := endMap / 2;
      i := i + 1;
    }
    MapStep(start, i);
    MapStep(end, i);
    assert obj + [] == obj;
  }

  // ----- what the conditions keep

  /** The key columns of a row, none of them NULL. */
  ghost predicate KeyOf(parts: seq<KeyPart>, row: Row, r: seq<int>) {
    |r| == |parts| && forall i | 0 <= i < |r| :: parts[i].col in row && row[parts[i].col] == r[i]
  }

  ghost predicate Gives(vals: seq<Value>, k: nat) {
    k < |vals| && vals[k].Some?
  }

  ghost predicate BoundsFit(parts: seq<KeyPart>, vals: seq<Value>) {
    |vals| <= |parts| && forall i: nat | Gives(vals, i) :: Fits(parts[i], vals[i].value)
  }

  /** Values compared with `$lte` or `$et` are not wrapped to a negative number. */
  ghost predicate Unwrapped(parts: seq<KeyPart>, vals: seq<Value>) {
    forall i | 0 <= i < |vals| && i < |parts| && vals[i].Some? :: !Wraps(parts[i], vals[i].value)
  }

  /** The row satisfies every condition of the match object. */
  ghost predicate AllAccept(ms: seq<Matcher>, row: Row) {
    forall m | m in ms :: Accepts(m, row, Rejecting)
  }

  lemma {:induction false} AllAcceptConcat(a: seq<Matcher>, b: seq<Matcher>, row: Row)
    ensures AllAccept(a + b, row) <==> AllAccept(a, row) && AllAccept(b, row)
  {
    assert forall m :: m in a + b <==> m in a || m in b;
  }

  ghost predicate Wraps(p: KeyPart, v: int) {
    p.kind.Unsigned? && p.len == 4 && v >= 0x8000_0000
  }

  lemma {:induction false} BoundIsAccepted(p: KeyPart, op: CmpOp, k: Option<Value>, row: Row)
    requires p.col in row
    requires k.Some? && Appended(p, k.value).Some? ==> Compare(op, row[p.col], Appended(p, k.value).value)
    ensures AllAccept(Bound(p, op, k), row)
  {
  }

  lemma {:induction false} PartIsAccepted(p: KeyPart, s: Option<Value>, e: Option<Value>, exact: bool, row: Row)
    requires p.col in row
    requires s.Some? && Appended(p, s.value).Some? ==>
               Compare(if exact then Eq else Ge, row[p.col], Appended(p, s.value).value)
    requires !exact && e.Some? && Appended(p, e.value).Some? ==> row[p.col] <= Appended(p, e.value).value
    ensures AllAccept(PartMatch(p, s, e, exact), row)
  {
    if exact {
      BoundIsAccepted(p, Eq, s, row);
    } else {
      BoundIsAccepted(p, Ge, s, row);
      BoundIsAccepted(p, Le, e, row);
      AllAcceptConcat(Bound(p, Ge, s), Bound(p, Le, e), row);
    }
  }

  ghost predicate PartAccepted(parts: seq<KeyPart>, start: seq<Value>, end: seq<Value>, exact: bool, row: Row, k: nat)
    requires k < |parts|
  {
    AllAccept(PartMatch(parts[k], At(start, k), At(end, k), exact), row)
  }

  lemma {:induction false} PartsTogether(parts: seq<KeyPart>, start: seq<Value>, end: seq<Value>, exact: bool,
                                         row: Row, i: nat)
    requires forall k | i <= k < |parts| :: PartAccepted(parts, start, end, exact, row, k)
    ensures AllAccept(RangeMatch(parts, start, end, exact, i), row)
    decreases |parts| - i
  {
    if i < |parts| && (i < |start| || i < |end|) {
      PartsTogether(parts, start, end, exact, row, i + 1);
      var part := PartMatch(parts[i], At(start, i), At(end, i), exact);
      var rest := RangeMatch(parts, start, end, exact, i + 1);
      assert RangeMatch(parts, start, end, exact, i) == part + rest;
      assert PartAccepted(parts, start, end, exact, row, i);
      AllAcceptConcat(part, rest, row);
    }
  }

  /** The conditions of each constrained part are among those built. */
  lemma {:induction false} PartIsBuilt(parts: seq<KeyPart>, start: seq<Value>, end: seq<Value>, exact: bool,
                                       i: nat, k: nat, row: Row)
    requires i <= k < |parts| && (k < |start| || k < |end|)
    requires AllAccept(RangeMatch(parts, start, end, exact, i), row)
    ensures AllAccept(PartMatch(parts[k], At(start, k), At(end, k), exact), row)
    decreases k - i
  {
    var part := PartMatch(parts[i], At(start, i), At(end, i), exact);
    AllAcceptConcat(part, RangeMatch(parts, start, end, exact, i + 1), row);
    if i < k {
      PartIsBuilt(parts, start, end, exact, i + 1, k, row);
    }
  }

  lemma {:induction false} WrappedBoundRejects(p: KeyPart, op: CmpOp, v: int, row: Row)
    requires Wraps(p, v) && Fits(p, v) && p.col in row && 0 <= row[p.col]
    requires (op == Eq && row[p.col] == v) || op == Le
    ensures !AllAccept(Bound(p, op, Some(Some(v))), row)
  {
    Powers();
    var m := ColVal(p.col, op, v - 0x1_0000_0000);
    assert Bound(p, op, Some(Some(v))) == [m];
    assert m in [m] && !Accepts(m, row, Rejecting);
  }

  lemma {:induction false} OneBound(p: KeyPart, op: CmpOp, k: Option<Value>, row: Row)
    requires p.col in row
    ensures AllAccept(Bound(p, op, k), row) <==>
            (k.Some? && Appended(p, k.value).Some? ==> Compare(op, row[p.col], Appended(p, k.value).value))
  {
    if k.Some? && Appended(p, k.value).Some? {
      var m := ColVal(p.col, op, Appended(p, k.value).value);
      assert Bound(p, op, k) == [m] && m in [m];
    }
  }

  /** A condition of part k refuses the row. */
  ghost predicate OutsideAt(parts: seq<KeyPart>, start: seq<Value>, end: seq<Value>, r: seq<int>, k: nat)
    requires k < |r| == |parts|
  {
    || (k < |start| && Appended(parts[k], start[k]).Some? && r[k] < Appended(parts[k], start[k]).value)
    || (k < |end| && Appended(parts[k], end[k]).Some? && Appended(parts[k], end[k]).value < r[k])
  }

  lemma {:induction false} OutsideIsRejected(parts: seq<KeyPart>, start: seq<Value>, end: seq<Value>, row: Row,
                                             r: seq<int>, k: nat)
    requires KeyOf(parts, row, r) && |start| <= |parts| && |end| <= |parts|
    requires k < |parts| && OutsideAt(parts, start, end, r, k)
    ensures !AllAccept(RangeMatch(parts, start, end, false, 0), row)
  {
    if AllAccept(RangeMatch(parts, start, end, false, 0), row) {
      PartIsBuilt(parts, start, end, false, 0, k, row);
      AllAcceptConcat(Bound(parts[k], Ge, At(start, k)), Bound(parts[k], Le, At(end, k)), row);
      OneBound(parts[k], Ge, At(start, k), row);
      OneBound(parts[k], Le, At(end, k), row);
    }
  }

  // ----- the match object as a whole

  /** What is appended for a part of a key compares as asked with the row. */
  ghost predicate Meets(p: KeyPart, op: CmpOp, k: Option<Value>, x: int) {
    k.Some? && Appended(p, k.value).Some? ==> Compare(op, x, Appended(p, k.value).value)
  }

  lemma {:induction false} PartMeans(p: KeyPart, s: Option<Value>, e: Option<Value>, exact: bool, row: Row)
    requires p.col in row
    ensures AllAccept(PartMatch(p, s, e, exact), row) <==>
            if exact then Meets(p, Eq, s, row[p.col]) else Meets(p, Ge, s, row[p.col]) && Meets(p, Le, e, row[p.col])
  {
    if exact {
      OneBound(p, Eq, s, row);
    } else {
      OneBound(p, Ge, s, row);
      OneBound(p, Le, e, row);
      AllAcceptConcat(Bound(p, Ge, s), Bound(p, Le, e), row);
    }
  }

  /** The rows the match object lets through, asked for or not: those that meet the
      condition of every part. */
  lemma {:induction false} RangeMeans(parts: seq<KeyPart>, start: seq<Value>, end: seq<Value>, exact: bool,
                                      row: Row, r: seq<int>)
    requires KeyOf(parts, row, r) && |start| <= |parts| && |end| <= |parts|
    ensures AllAccept(RangeMatch(parts, start, end, exact, 0), row) <==>
            forall k | 0 <= k < |parts| ::
              if exact then Meets(parts[k], Eq, At(start, k), r[k])
              else Meets(parts[k], Ge, At(start, k), r[k]) && Meets(parts[k], Le, At(end, k), r[k])
  {
    forall k | 0 <= k < |parts|
      ensures PartAccepted(parts, start, end, exact, row, k) <==>
              if exact then Meets(parts[k], Eq, At(start, k), r[k])
              else Meets(parts[k], Ge, At(start, k), r[k]) && Meets(parts[k], Le, At(end, k), r[k])
    {
      PartMeans(parts[k], At(start, k), At(end, k), exact, row);
    }
    if AllAccept(RangeMatch(parts, start, end, exact, 0), row) {
      forall k | 0 <= k < |parts| ensures PartAccepted(parts, start, end, exact, row, k) {
        if k < |start| || k < |end| {
          PartIsBuilt(parts, start, end, exact, 0, k, row);
        }
      }
    } else if forall k | 0 <= k < |parts| :: PartAccepted(parts, start, end, exact, row, k) {
      PartsTogether(parts, start, end, exact, row, 0);
    }
  }

  // ----- one bound of an integer part

  /** The rows with a value in the part that the bound is meant to keep, and those its
      condition keeps. */
  ghost predicate BoundKeeps(p: KeyPart, op: CmpOp, v: int, x: int) {
    AllAccept(Bound(p, op, Some(Some(v))), map[p.col := x])
  }

  /** A bound loses no row if and only if it is a lower bound or its value is not
      wrapped. */
  lemma {:induction false} BoundLosesNothingIff(p: KeyPart, op: CmpOp, v: int)
    requires !p.kind.Other? && IntLength(p.len) && Fits(p, v) && (op == Eq || op == Ge || op == Le)
    ensures (forall x | Fits(p, x) && Compare(op, x, v) :: BoundKeeps(p, op, v, x)) <==> op == Ge || !Wraps(p, v)
  {
    if op == Ge || !Wraps(p, v) {
      forall x | Fits(p, x) && Compare(op, x, v) ensures BoundKeeps(p, op, v, x) {
        BoundIsAccepted(p, op, Some(Some(v)), map[p.col := x]);
      }
    } else {
      WrappedBoundRejects(p, op, v, map[p.col := v]);
      assert !BoundKeeps(p, op, v, v);
    }
  }

  /** A bound keeps exactly the rows it is meant to if and only if its value is in the
      lower half of its type or the part is signed or short; except that leaving out
      the largest upper bound of all does no harm. */
  lemma {:induction false} BoundIsExactIff(p: KeyPart, op: CmpOp, v: int)
    requires !p.kind.Other? && IntLength(p.len) && Fits(p, v) && (op == Eq || op == Ge || op == Le)
    ensures (forall x | Fits(p, x) :: BoundKeeps(p, op, v, x) <==> Compare(op, x, v)) <==>
            || !(p.kind.Unsigned? && (p.len == 4 || p.len == 8) && 2 * v >= Pow256(p.len))
            || (p.len == 8 && op == Le && v == Pow256(8) - 1)
  {
    Powers();
    AppendedUnchangedIff(p, v);
    if Appended(p, Some(v)) == Some(v) {
      forall x | Fits(p, x) ensures BoundKeeps(p, op, v, x) <==> Compare(op, x, v) {
        OneBound(p, op, Some(Some(v)), map[p.col := x]);
      }
    } else if p.len == 8 {
      assert forall x :: BoundKeeps(p, op, v, x);
      assert if op == Le then Fits(p, v) && (v < Pow256(8) - 1 ==> Fits(p, v + 1) && !Compare(op, v + 1, v))
             else Fits(p, 0) && !Compare(op, 0, v);
    } else {
      WrappedBound(p, op, v);
    }
  }

  lemma {:induction false} WrappedBound(p: KeyPart, op: CmpOp, v: int)
    requires Wraps(p, v) && Fits(p, v) && (op == Eq || op == Ge || op == Le)
    ensures exists x :: Fits(p, x) && BoundKeeps(p, op, v, x) != Compare(op, x, v)
  {
    Powers();
    if op == Ge {
      assert BoundKeeps(p, op, v, 0) by {
        assert Bound(p, op, Some(Some(v))) == [ColVal(p.col, Ge, v - 0x1_0000_0000)];
      }
      assert Fits(p, 0) && !Compare(op, 0, v);
    } else {
      WrappedBoundRejects(p, op, v, map[p.col := v]);
      assert !BoundKeeps(p, op, v, v) && Compare(op, v, v);
    }
  }
}
