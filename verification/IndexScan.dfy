/** Index scans: the rows MySQL asks for between two keys, and whether the match object
    keeps them (driver/mysql/ha_sdb.cc, index_read_map and
    build_match_obj_by_start_stop_key). */
module IndexScan {
  import opened Options
  import opened Sql
  import opened Match
  import opened IndexKey
  import opened IndexOrder
  import opened IndexRange

  // ----- the rows asked for

  /** The keys of a range scan.  `after` is HA_READ_AFTER_KEY for the start key, `before`
      is HA_READ_BEFORE_KEY for the end key: rows that begin with the key are then not
      asked for. */
  datatype Scan = Scan(start: seq<Value>, after: bool, end: seq<Value>, before: bool)

  /** r is not before the start key, by the parts from i on; NULL sorts before every
      value. */
  ghost predicate AtLeast(start: seq<Value>, open: bool, r: seq<int>, i: nat)
    requires |start| <= |r|
    decreases |start| - i
  {
    if i >= |start| then !open
    else start[i].None? || start[i].value < r[i] || (start[i].value == r[i] && AtLeast(start, open, r, i + 1))
  }

  ghost predicate AtMost(end: seq<Value>, open: bool, r: seq<int>, i: nat)
    requires |end| <= |r|
    decreases |end| - i
  {
    if i >= |end| then !open
    else end[i].Some? && (r[i] < end[i].value || (r[i] == end[i].value && AtMost(end, open, r, i + 1)))
  }

  /** The rows a range scan asks for; a key that gives no part is no bound. */
  ghost predicate Asked(sc: Scan, r: seq<int>)
    requires |sc.start| <= |r| && |sc.end| <= |r|
  {
    && AtLeast(sc.start, sc.after && sc.start != [], r, 0)
    && AtMost(sc.end, sc.before && sc.end != [], r, 0)
  }

  /** The rows an equality asks for. */
  ghost predicate AskedExact(start: seq<Value>, r: seq<int>)
    requires |start| <= |r|
  {
    forall i | 0 <= i < |start| :: start[i] == Some(r[i])
  }

  ghost predicate ScanFits(parts: seq<KeyPart>, sc: Scan) {
    BoundsFit(parts, sc.start) && BoundsFit(parts, sc.end)
  }

  // ----- as a closed interval

  /** The parts of a key before its first NULL. */
  ghost function Plain(vals: seq<Value>): (vs: seq<int>)
    ensures |vs| <= |vals| && (forall i | 0 <= i < |vs| :: vals[i] == Some(vs[i]))
    ensures |vs| < |vals| ==> vals[|vs|].None?
  {
    if vals == [] || vals[0].None? then [] else [vals[0].value] + Plain(vals[1..])
  }

  lemma {:induction false} PlainFits(parts: seq<KeyPart>, vals: seq<Value>)
    requires BoundsFit(parts, vals)
    ensures KeyFits(parts, Plain(vals))
  {
    forall i | 0 <= i < |Plain(vals)| ensures Fits(parts[i], Plain(vals)[i]) {
      assert Gives(vals, i);
    }
  }

  /** The bounds of the rows asked for, both included; None when there are none.  A NULL
      in the start key is passed by every row that gets to it, one in the end key by no
      row. */
  ghost function Low(parts: seq<KeyPart>, sc: Scan): (lo: Option<seq<int>>)
    requires ScanFits(parts, sc)
    ensures lo.Some? ==> KeyFits(parts, lo.value)
  {
    PlainFits(parts, sc.start);
    var vs := Plain(sc.start);
    if sc.after && sc.start != [] && |vs| == |sc.start| then Succ(parts, vs, 0) else Some(vs)
  }

  ghost function High(parts: seq<KeyPart>, sc: Scan): (hi: Option<seq<int>>)
    requires ScanFits(parts, sc)
    ensures hi.Some? ==> KeyFits(parts, hi.value)
  {
    PlainFits(parts, sc.end);
    var vs := Plain(sc.end);
    if (sc.before && sc.end != []) || |vs| < |sc.end| then Pred(parts, vs, 0) else Some(vs)
  }

  lemma {:induction false} AtLeastMeans(start: seq<Value>, open: bool, r: seq<int>, i: nat)
    requires |start| <= |r| && i <= |Plain(start)|
    ensures var vs := Plain(start);
            AtLeast(start, open, r, i) <==> if open && |vs| == |start| then After(r, vs, i) else NotBefore(r, vs, i)
    decreases |start| - i
  {
    if i < |Plain(start)| {
      AtLeastMeans(start, open, r, i + 1);
    }
  }

  lemma {:induction false} AtMostMeans(end: seq<Value>, open: bool, r: seq<int>, i: nat)
    requires |end| <= |r| && i <= |Plain(end)|
    ensures var vs := Plain(end);
            AtMost(end, open, r, i) <==> if open || |vs| < |end| then Before(r, vs, i) else NotAfter(r, vs, i)
    decreases |end| - i
  {
    if i < |Plain(end)| {
      AtMostMeans(end, open, r, i + 1);
    }
  }

  /** The scan asks for some row. */
  ghost predicate Holds(parts: seq<KeyPart>, sc: Scan)
    requires ScanFits(parts, sc)
  {
    Low(parts, sc).Some? && High(parts, sc).Some? && NonEmpty(Low(parts, sc).value, High(parts, sc).value, 0)
  }

  lemma {:induction false} AskedMeans(parts: seq<KeyPart>, sc: Scan, r: seq<int>)
    requires ScanFits(parts, sc) && RowFits(parts, r)
    ensures Asked(sc, r) <==> Holds(parts, sc) && Inside(r, Low(parts, sc).value, High(parts, sc).value, 0)
  {
    PlainFits(parts, sc.start);
    PlainFits(parts, sc.end);
    AtLeastMeans(sc.start, sc.after && sc.start != [], r, 0);
    AtMostMeans(sc.end, sc.before && sc.end != [], r, 0);
    SuccMeans(parts, Plain(sc.start), r, 0);
    PredMeans(parts, Plain(sc.end), r, 0);
    if Low(parts, sc).Some? && High(parts, sc).Some? && Inside(r, Low(parts, sc).value, High(parts, sc).value, 0) {
      RowShowsNonEmpty(r, Low(parts, sc).value, High(parts, sc).value, 0);
    }
  }

  // ----- whether the match object keeps them

  ghost predicate LowerFits(parts: seq<KeyPart>, sc: Scan, k: nat)
    requires ScanFits(parts, sc) && Holds(parts, sc) && k < |parts|
  {
    k < |sc.start| && Appended(parts[k], sc.start[k]).Some? ==>
      Appended(parts[k], sc.start[k]).value <= Least(parts, Low(parts, sc).value, High(parts, sc).value, 0, k)
  }

  ghost predicate UpperFits(parts: seq<KeyPart>, sc: Scan, k: nat)
    requires ScanFits(parts, sc) && Holds(parts, sc) && k < |parts|
  {
    k < |sc.end| && Appended(parts[k], sc.end[k]).Some? && !Wraps(parts[k], sc.end[k].value) ==>
      Most(parts, Low(parts, sc).value, High(parts, sc).value, 0, k) <= Appended(parts[k], sc.end[k]).value
  }

  /** The interval is a box: no condition of a part, wrapped ones aside, refuses a value
      that the part takes in it. */
  ghost predicate Boxed(parts: seq<KeyPart>, sc: Scan)
    requires ScanFits(parts, sc)
  {
    Holds(parts, sc) ==> forall k | 0 <= k < |parts| :: LowerFits(parts, sc, k) && UpperFits(parts, sc, k)
  }

  ghost function ScanMatch(parts: seq<KeyPart>, sc: Scan): seq<Matcher> {
    RangeMatch(parts, sc.start, sc.end, false, 0)
  }

  lemma {:induction false} BoxIsAccepted(parts: seq<KeyPart>, sc: Scan, row: Row, r: seq<int>)
    requires KeyOf(parts, row, r) && RowFits(parts, r) && ScanFits(parts, sc) && Asked(sc, r)
    requires Boxed(parts, sc) && Unwrapped(parts, sc.end)
    ensures AllAccept(ScanMatch(parts, sc), row)
  {
    AskedMeans(parts, sc, r);
    var lo, hi := Low(parts, sc).value, High(parts, sc).value;
    forall k | 0 <= k < |parts| ensures PartAccepted(parts, sc.start, sc.end, false, row, k) {
      assert LowerFits(parts, sc, k) && UpperFits(parts, sc, k);
      if !parts[k].kind.Other? {
        LeastIsLeast(parts, lo, hi, r, 0, k);
        MostIsMost(parts, lo, hi, r, 0, k);
      }
      PartIsAccepted(parts[k], At(sc.start, k), At(sc.end, k), false, row);
    }
    PartsTogether(parts, sc.start, sc.end, false, row, 0);
  }

  /** An upper bound that is wrapped refuses every row. */
  lemma {:induction false} WrappedRefuses(parts: seq<KeyPart>, sc: Scan, row: Row, r: seq<int>)
    requires KeyOf(parts, row, r) && RowFits(parts, r) && ScanFits(parts, sc) && !Unwrapped(parts, sc.end)
    ensures !AllAccept(ScanMatch(parts, sc), row)
  {
    var k :| 0 <= k < |sc.end| && sc.end[k].Some? && Wraps(parts[k], sc.end[k].value);
    assert Gives(sc.end, k);
    Powers();
    OutsideIsRejected(parts, sc.start, sc.end, row, r, k);
  }

  /** A row of a box is kept if and only if no upper bound is an unsigned 4-byte value of
      at least 2^31. */
  lemma {:induction false} AskedRowIsKeptIff(parts: seq<KeyPart>, sc: Scan, row: Row, r: seq<int>)
    requires KeyOf(parts, row, r) && RowFits(parts, r) && ScanFits(parts, sc) && Asked(sc, r) && Boxed(parts, sc)
    ensures AllAccept(ScanMatch(parts, sc), row) <==> Unwrapped(parts, sc.end)
  {
    if Unwrapped(parts, sc.end) {
      BoxIsAccepted(parts, sc, row, r);
    } else {
      WrappedRefuses(parts, sc, row, r);
    }
  }

  /** The rows an equality returns, asked for or not: those equal to what is appended for
      each part of the key. */
  lemma {:induction false} EqualityMeans(parts: seq<KeyPart>, start: seq<Value>, end: seq<Value>,
                                         row: Row, r: seq<int>)
    requires KeyOf(parts, row, r) && |start| <= |parts| && |end| <= |parts|
    ensures AllAccept(RangeMatch(parts, start, end, true, 0), row) <==>
            forall k | 0 <= k < |start| && Appended(parts[k], start[k]).Some? ::
              Appended(parts[k], start[k]) == Some(r[k])
  {
    RangeMeans(parts, start, end, true, row, r);
    assert forall k | 0 <= k < |start| ::
      Meets(parts[k], Eq, At(start, k), r[k]) <==>
      (Appended(parts[k], start[k]).Some? ==> Appended(parts[k], start[k]) == Some(r[k]));
  }

  /** So with a key that is appended as it is, exactly the rows asked for. */
  lemma {:induction false} EqualityIsExact(parts: seq<KeyPart>, start: seq<Value>, end: seq<Value>,
                                           row: Row, r: seq<int>)
    requires KeyOf(parts, row, r) && |start| <= |parts| && |end| <= |parts|
    requires forall k | 0 <= k < |start| :: start[k].Some? && Appended(parts[k], start[k]) == start[k]
    ensures AllAccept(RangeMatch(parts, start, end, true, 0), row) <==> AskedExact(start, r)
  {
    EqualityMeans(parts, start, end, row, r);
  }

  /** A row asked for by an equality is kept if and only if no value of the key is
      wrapped. */
  lemma {:induction false} EqualityIsKeptIff(parts: seq<KeyPart>, start: seq<Value>, end: seq<Value>,
                                             row: Row, r: seq<int>)
    requires KeyOf(parts, row, r) && RowFits(parts, r) && BoundsFit(parts, start) && |end| <= |parts|
    requires AskedExact(start, r)
    ensures AllAccept(RangeMatch(parts, start, end, true, 0), row) <==> Unwrapped(parts, start)
  {
    EqualityMeans(parts, start, end, row, r);
    if !Unwrapped(parts, start) {
      var k :| 0 <= k < |start| && start[k].Some? && Wraps(parts[k], start[k].value);
      assert Gives(start, k);
      assert Appended(parts[k], start[k]) != Some(r[k]);
    }
  }

  /** The row with the given key columns. */
  ghost function RowOf(parts: seq<KeyPart>, r: seq<int>): Row
    requires |r| == |parts|
  {
    if parts == [] then map[] else RowOf(parts[..|parts| - 1], r[..|r| - 1])[parts[|parts| - 1].col := r[|r| - 1]]
  }

  ghost predicate DistinctCols(parts: seq<KeyPart>) {
    forall i, j | 0 <= i < j < |parts| :: parts[i].col != parts[j].col
  }

  lemma {:induction false} RowOfHasKey(parts: seq<KeyPart>, r: seq<int>)
    requires |r| == |parts| && DistinctCols(parts)
    ensures KeyOf(parts, RowOf(parts, r), r)
  {
    if parts != [] {
      RowOfHasKey(parts[..|parts| - 1], r[..|r| - 1]);
    }
  }

  ghost predicate KeepsAsked(parts: seq<KeyPart>, sc: Scan)
    requires ScanFits(parts, sc)
  {
    forall row, r | KeyOf(parts, row, r) && RowFits(parts, r) && Asked(sc, r) :: AllAccept(ScanMatch(parts, sc), row)
  }

  /** A row of the interval that one of the conditions refuses. */
  lemma {:induction false} LeavesTheBox(parts: seq<KeyPart>, sc: Scan, k: nat) returns (r: seq<int>)
    requires ScanFits(parts, sc) && Holds(parts, sc)
    requires k < |parts| && !(LowerFits(parts, sc, k) && UpperFits(parts, sc, k))
    ensures RowFits(parts, r) && Asked(sc, r) && OutsideAt(parts, sc.start, sc.end, r, k)
  {
    var lo, hi := Low(parts, sc).value, High(parts, sc).value;
    if !LowerFits(parts, sc, k) {
      r := LeastIsReached(parts, lo, hi, 0, k);
    } else {
      r := MostIsReached(parts, lo, hi, 0, k);
    }
    AskedMeans(parts, sc, r);
  }

  /** A scan keeps all the rows it asks for if and only if it asks for none, or its
      interval is a box and none of its upper bounds is wrapped: for open and closed
      bounds, parts of any kind, bounds anywhere in their types, left out or wrapped,
      and NULLs in either key. */
  lemma {:induction false} RangeIsSoundIff(parts: seq<KeyPart>, sc: Scan)
    requires DistinctCols(parts) && ScanFits(parts, sc)
    ensures KeepsAsked(parts, sc) <==> !Holds(parts, sc) || (Boxed(parts, sc) && Unwrapped(parts, sc.end))
  {
    if !Holds(parts, sc) || (Boxed(parts, sc) && Unwrapped(parts, sc.end)) {
      forall row, r | KeyOf(parts, row, r) && RowFits(parts, r) && Asked(sc, r)
        ensures AllAccept(ScanMatch(parts, sc), row)
      {
        AskedMeans(parts, sc, r);
        BoxIsAccepted(parts, sc, row, r);
      }
    } else if !Unwrapped(parts, sc.end) {
      var r := SomeRow(parts, Low(parts, sc).value, High(parts, sc).value, 0);
      AskedMeans(parts, sc, r);
      RowOfHasKey(parts, r);
      WrappedRefuses(parts, sc, RowOf(parts, r), r);
    } else {
      var k :| 0 <= k < |parts| && !(LowerFits(parts, sc, k) && UpperFits(parts, sc, k));
      var r := LeavesTheBox(parts, sc, k);
      RowOfHasKey(parts, r);
      OutsideIsRejected(parts, sc.start, sc.end, RowOf(parts, r), r, k);
    }
  }

  // ----- bounds that agree on a prefix

  /** The bounds agree on every part before the last one that either gives. */
  ghost predicate EqualPrefix(sc: Scan) {
    forall j: nat | j + 1 < |sc.start| || j + 1 < |sc.end| ::
      j < |sc.start| && j < |sc.end| && sc.start[j].Some? && sc.start[j] == sc.end[j]
  }

  lemma {:induction false} PrefixForces(sc: Scan, after: bool, before: bool, r: seq<int>, i: nat)
    requires |sc.start| <= |r| && |sc.end| <= |r| && EqualPrefix(sc)
    requires AtLeast(sc.start, after, r, i) && AtMost(sc.end, before, r, i)
    ensures forall k | i <= k < |sc.start| && sc.start[k].Some? :: sc.start[k].value <= r[k]
    ensures forall k | i <= k < |sc.end| && sc.end[k].Some? :: r[k] <= sc.end[k].value
    decreases |r| - i
  {
    if i + 1 < |sc.start| || i + 1 < |sc.end| {
      assert sc.start[i] == sc.end[i];
      PrefixForces(sc, after, before, r, i + 1);
    }
  }

  lemma {:induction false} EqualPrefixFits(parts: seq<KeyPart>, sc: Scan, k: nat)
    requires ScanFits(parts, sc) && EqualPrefix(sc) && Holds(parts, sc) && k < |parts| && !parts[k].kind.Other?
    ensures LowerFits(parts, sc, k) && UpperFits(parts, sc, k)
  {
    var lo, hi := Low(parts, sc).value, High(parts, sc).value;
    var r := LeastIsReached(parts, lo, hi, 0, k);
    AskedRowInPrefix(parts, sc, r);
    var r' := MostIsReached(parts, lo, hi, 0, k);
    AskedRowInPrefix(parts, sc, r');
  }

  lemma {:induction false} AskedRowInPrefix(parts: seq<KeyPart>, sc: Scan, r: seq<int>)
    requires ScanFits(parts, sc) && EqualPrefix(sc) && Holds(parts, sc) && RowFits(parts, r)
    requires Inside(r, Low(parts, sc).value, High(parts, sc).value, 0)
    ensures forall k | 0 <= k < |sc.start| && sc.start[k].Some? :: sc.start[k].value <= r[k]
    ensures forall k | 0 <= k < |sc.end| && sc.end[k].Some? :: r[k] <= sc.end[k].value
  {
    AskedMeans(parts, sc, r);
    PrefixForces(sc, sc.after && sc.start != [], sc.before && sc.end != [], r, 0);
  }

  /** The case callers rely on. */
  lemma {:induction false} EqualPrefixIsBoxed(parts: seq<KeyPart>, sc: Scan)
    requires ScanFits(parts, sc) && EqualPrefix(sc)
    ensures Boxed(parts, sc)
  {
    if Holds(parts, sc) {
      forall k | 0 <= k < |parts| ensures LowerFits(parts, sc, k) && UpperFits(parts, sc, k) {
        if !parts[k].kind.Other? {
          EqualPrefixFits(parts, sc, k);
        }
      }
    }
  }

  // ----- examples

  /** An equality on an unsigned 4-byte column loses its row: 3000000000 is sent as
      -1294967296. */
  lemma {:induction false} WrappedEqualityLosesRow()
    ensures var parts := [KeyPart("u", Unsigned, 4, false)];
            var row := map["u" := 3000000000];
            && AskedExact([Some(3000000000)], [3000000000])
            && RangeMatch(parts, [Some(3000000000)], [], true, 0) == [ColVal("u", Eq, -1294967296)]
            && !AllAccept(RangeMatch(parts, [Some(3000000000)], [], true, 0), row)
  {
    var parts := [KeyPart("u", Unsigned, 4, false)];
    var m := ColVal("u", Eq, -1294967296);
    var row := map["u" := 3000000000];
    assert RangeMatch(parts, [Some(3000000000)], [], true, 1) == [];
    assert PartMatch(parts[0], Some(Some(3000000000)), None, true) == [m];
    assert RangeMatch(parts, [Some(3000000000)], [], true, 0) == [m] + [] == [m];
    assert m in [m] && !Accepts(m, row, Rejecting);
  }

  const TWO_COLUMNS := [KeyPart("a", Signed, 4, false), KeyPart("b", Signed, 4, false)]

  /** The range from (1, 5) up to and including (2) loses the row (2, 0), which lies inside
      it. */
  lemma {:induction false} ClosedEndLosesRow()
    ensures var sc := Scan([Some(1), Some(5)], false, [Some(2)], false);
            && Asked(sc, [2, 0])
            && !AllAccept(ScanMatch(TWO_COLUMNS, sc), map["a" := 2, "b" := 0])
  {
    var sc := Scan([Some(1), Some(5)], false, [Some(2)], false);
    var row := map["a" := 2, "b" := 0];
    assert KeyOf(TWO_COLUMNS, row, [2, 0]);
    assert AtMost([Some(2)], false, [2, 0], 1);
    assert Appended(TWO_COLUMNS[1], Some(5)) == Some(5);
    OutsideIsRejected(TWO_COLUMNS, sc.start, sc.end, row, [2, 0], 1);
  }

  /** From (1, 5) up to but not including (2) nothing is lost. */
  lemma {:induction false} OpenEndKeepsRows()
    ensures var sc := Scan([Some(1), Some(5)], false, [Some(2)], true);
            ScanFits(TWO_COLUMNS, sc) && KeepsAsked(TWO_COLUMNS, sc)
  {
    var sc := Scan([Some(1), Some(5)], false, [Some(2)], true);
    Powers();
    assert ScanFits(TWO_COLUMNS, sc);
    forall row, r | KeyOf(TWO_COLUMNS, row, r) && RowFits(TWO_COLUMNS, r) && Asked(sc, r)
      ensures AllAccept(ScanMatch(TWO_COLUMNS, sc), row)
    {
      assert !AtMost(sc.end, true, r, 1);
      assert AtLeast(sc.start, false, r, 0) && r[0] == 1;
      assert AtLeast(sc.start, false, r, 1) && r[1] >= 5;
      forall k | 0 <= k < 2 ensures PartAccepted(TWO_COLUMNS, sc.start, sc.end, false, row, k) {
        PartIsAccepted(TWO_COLUMNS[k], At(sc.start, k), At(sc.end, k), false, row);
      }
      PartsTogether(TWO_COLUMNS, sc.start, sc.end, false, row, 0);
    }
  }
}
