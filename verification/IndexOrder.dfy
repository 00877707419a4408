/** Intervals of composite keys in the order of the index: which values each part takes
    over the rows between two bounds. */
module IndexOrder {
  import opened Options
  import opened IndexKey

  // ----- the values of a part

  /** The least and the largest value of an integer part. */
  ghost function Lo(p: KeyPart): int {
    if p.kind.Signed? then -(Pow256(p.len) / 2) else 0
  }

  ghost function Hi(p: KeyPart): int {
    if p.kind.Signed? then (Pow256(p.len) - 1) / 2 else Pow256(p.len) - 1
  }

  lemma {:induction false} TypeEnds(p: KeyPart, v: int)
    requires !p.kind.Other?
    ensures Fits(p, v) <==> Lo(p) <= v <= Hi(p)
    ensures Fits(p, Lo(p)) && Fits(p, Hi(p))
  {
    if p.len > 0 {
      assert Pow256(p.len) == 256 * Pow256(p.len - 1);
    }
  }

  ghost predicate RowFits(parts: seq<KeyPart>, r: seq<int>) {
    |r| == |parts| && forall i | 0 <= i < |r| :: Fits(parts[i], r[i])
  }

  ghost predicate KeyFits(parts: seq<KeyPart>, vs: seq<int>) {
    |vs| <= |parts| && forall i | 0 <= i < |vs| :: Fits(parts[i], vs[i])
  }

  // ----- the order, over the parts a bound gives, from part i on

  ghost predicate NotBefore(r: seq<int>, lo: seq<int>, i: nat)
    requires |lo| <= |r|
    decreases |lo| - i
  {
    i >= |lo| || lo[i] < r[i] || (lo[i] == r[i] && NotBefore(r, lo, i + 1))
  }

  ghost predicate NotAfter(r: seq<int>, hi: seq<int>, i: nat)
    requires |hi| <= |r|
    decreases |hi| - i
  {
    i >= |hi| || r[i] < hi[i] || (r[i] == hi[i] && NotAfter(r, hi, i + 1))
  }

  ghost predicate After(r: seq<int>, lo: seq<int>, i: nat)
    requires |lo| <= |r|
    decreases |lo| - i
  {
    i < |lo| && (lo[i] < r[i] || (lo[i] == r[i] && After(r, lo, i + 1)))
  }

  ghost predicate Before(r: seq<int>, hi: seq<int>, i: nat)
    requires |hi| <= |r|
    decreases |hi| - i
  {
    i < |hi| && (r[i] < hi[i] || (r[i] == hi[i] && Before(r, hi, i + 1)))
  }

  ghost predicate Inside(r: seq<int>, lo: seq<int>, hi: seq<int>, i: nat)
    requires |lo| <= |r| && |hi| <= |r|
  {
    NotBefore(r, lo, i) && NotAfter(r, hi, i)
  }

  lemma {:induction false} Frame(r: seq<int>, r': seq<int>, lo: seq<int>, hi: seq<int>, i: nat)
    requires |lo| <= |r| == |r'| && |hi| <= |r| && forall k | i <= k < |r| :: r[k] == r'[k]
    ensures NotBefore(r, lo, i) == NotBefore(r', lo, i) && NotAfter(r, hi, i) == NotAfter(r', hi, i)
    decreases |r| - i
  {
    if i < |r| {
      Frame(r, r', lo, hi, i + 1);
    }
  }

  /** The bounds do not cross. */
  ghost predicate NonEmpty(lo: seq<int>, hi: seq<int>, i: nat)
    decreases |lo| - i
  {
    i >= |lo| || i >= |hi| || lo[i] < hi[i] || (lo[i] == hi[i] && NonEmpty(lo, hi, i + 1))
  }

  lemma {:induction false} RowShowsNonEmpty(r: seq<int>, lo: seq<int>, hi: seq<int>, i: nat)
    requires |lo| <= |r| && |hi| <= |r| && Inside(r, lo, hi, i)
    ensures NonEmpty(lo, hi, i)
    decreases |r| - i
  {
    if i < |lo| && i < |hi| && lo[i] == hi[i] {
      RowShowsNonEmpty(r, lo, hi, i + 1);
    }
  }

  // ----- rows as low and as high as the bounds allow

  ghost function Lowest(parts: seq<KeyPart>, hi: seq<int>): (r: seq<int>)
    ensures |r| == |parts|
  {
    seq(|parts|, m requires 0 <= m < |parts| =>
      if !parts[m].kind.Other? then Lo(parts[m]) else if m < |hi| then hi[m] else 0)
  }

  ghost function Highest(parts: seq<KeyPart>, lo: seq<int>): (r: seq<int>)
    ensures |r| == |parts|
  {
    seq(|parts|, m requires 0 <= m < |parts| =>
      if !parts[m].kind.Other? then Hi(parts[m]) else if m < |lo| then lo[m] else 0)
  }

  lemma {:induction false} ExtremesFit(parts: seq<KeyPart>, lo: seq<int>, hi: seq<int>)
    ensures RowFits(parts, Lowest(parts, hi)) && RowFits(parts, Highest(parts, lo))
  {
    forall m | 0 <= m < |parts| ensures Fits(parts[m], Lowest(parts, hi)[m]) && Fits(parts[m], Highest(parts, lo)[m]) {
      if !parts[m].kind.Other? {
        TypeEnds(parts[m], 0);
      }
    }
  }

  lemma {:induction false} LowestIsNotAfter(parts: seq<KeyPart>, hi: seq<int>, r: seq<int>, i: nat)
    requires KeyFits(parts, hi) && |r| == |parts| && forall m | i <= m < |r| :: r[m] == Lowest(parts, hi)[m]
    ensures NotAfter(r, hi, i)
    decreases |r| - i
  {
    if i < |hi| {
      if !parts[i].kind.Other? {
        TypeEnds(parts[i], hi[i]);
      }
      LowestIsNotAfter(parts, hi, r, i + 1);
    }
  }

  lemma {:induction false} HighestIsNotBefore(parts: seq<KeyPart>, lo: seq<int>, r: seq<int>, i: nat)
    requires KeyFits(parts, lo) && |r| == |parts| && forall m | i <= m < |r| :: r[m] == Highest(parts, lo)[m]
    ensures NotBefore(r, lo, i)
    decreases |r| - i
  {
    if i < |lo| {
      if !parts[i].kind.Other? {
        TypeEnds(parts[i], lo[i]);
      }
      HighestIsNotBefore(parts, lo, r, i + 1);
    }
  }

  /** Bounds that do not cross hold a row. */
  lemma {:induction false} SomeRow(parts: seq<KeyPart>, lo: seq<int>, hi: seq<int>, i: nat) returns (r: seq<int>)
    requires KeyFits(parts, lo) && KeyFits(parts, hi) && NonEmpty(lo, hi, i)
    ensures RowFits(parts, r) && Inside(r, lo, hi, i)
    decreases |parts| - i
  {
    ExtremesFit(parts, lo, hi);
    if i < |lo| && i < |hi| && lo[i] == hi[i] {
      var r' := SomeRow(parts, lo, hi, i + 1);
      r := r'[i := hi[i]];
      Frame(r', r, lo, hi, i + 1);
    } else if i < |hi| {
      r := Lowest(parts, hi)[i := hi[i]];
      LowestIsNotAfter(parts, hi, r, i + 1);
    } else {
      r := Highest(parts, lo);
      HighestIsNotBefore(parts, lo, r, i);
    }
  }

  // ----- the least and the largest value a part takes

  /** Part j can be above its lower bound, so that this says nothing of later parts. */
  ghost predicate FreeAbove(parts: seq<KeyPart>, lo: seq<int>, hi: seq<int>, j: nat) {
    && j < |lo| && j < |parts|
    && if j < |hi| then lo[j] < hi[j] else parts[j].kind.Other? || lo[j] < Hi(parts[j])
  }

  ghost predicate FreeBelow(parts: seq<KeyPart>, lo: seq<int>, hi: seq<int>, j: nat) {
    && j < |hi| && j < |parts|
    && if j < |lo| then lo[j] < hi[j] else parts[j].kind.Other? || Lo(parts[j]) < hi[j]
  }

  /** Of the rows between the bounds, by the parts from i on, the least value of part k:
      its own lower bound while no part before it is free, the least of its type then. */
  ghost function Least(parts: seq<KeyPart>, lo: seq<int>, hi: seq<int>, i: nat, k: nat): int
    requires i <= k < |parts|
    decreases k - i
  {
    if i < k then (if FreeAbove(parts, lo, hi, i) then Lo(parts[k]) else Least(parts, lo, hi, i + 1, k))
    else if k < |lo| then lo[k] else Lo(parts[k])
  }

  ghost function Most(parts: seq<KeyPart>, lo: seq<int>, hi: seq<int>, i: nat, k: nat): int
    requires i <= k < |parts|
    decreases k - i
  {
    if i < k then (if FreeBelow(parts, lo, hi, i) then Hi(parts[k]) else Most(parts, lo, hi, i + 1, k))
    else if k < |hi| then hi[k] else Hi(parts[k])
  }

  lemma {:induction false} BeyondTheBounds(parts: seq<KeyPart>, lo: seq<int>, hi: seq<int>, i: nat, k: nat)
    requires i <= k < |parts|
    ensures k >= |lo| ==> Least(parts, lo, hi, i, k) == Lo(parts[k])
    ensures k >= |hi| ==> Most(parts, lo, hi, i, k) == Hi(parts[k])
    decreases k - i
  {
    if i < k {
      BeyondTheBounds(parts, lo, hi, i + 1, k);
    }
  }

  lemma {:induction false} LeastIsLeast(parts: seq<KeyPart>, lo: seq<int>, hi: seq<int>, r: seq<int>, i: nat, k: nat)
    requires RowFits(parts, r) && |lo| <= |r| && |hi| <= |r| && Inside(r, lo, hi, i)
    requires i <= k < |parts| && !parts[k].kind.Other?
    ensures Least(parts, lo, hi, i, k) <= r[k]
    decreases k - i
  {
    TypeEnds(parts[k], r[k]);
    if k >= |lo| {
      BeyondTheBounds(parts, lo, hi, i, k);
    } else if i < k && !FreeAbove(parts, lo, hi, i) {
      if !parts[i].kind.Other? {
        TypeEnds(parts[i], r[i]);
      }
      LeastIsLeast(parts, lo, hi, r, i + 1, k);
    }
  }

  lemma {:induction false} MostIsMost(parts: seq<KeyPart>, lo: seq<int>, hi: seq<int>, r: seq<int>, i: nat, k: nat)
    requires RowFits(parts, r) && |lo| <= |r| && |hi| <= |r| && Inside(r, lo, hi, i)
    requires i <= k < |parts| && !parts[k].kind.Other?
    ensures r[k] <= Most(parts, lo, hi, i, k)
    decreases k - i
  {
    TypeEnds(parts[k], r[k]);
    if k >= |hi| {
      BeyondTheBounds(parts, lo, hi, i, k);
    } else if i < k && !FreeBelow(parts, lo, hi, i) {
      if !parts[i].kind.Other? {
        TypeEnds(parts[i], r[i]);
      }
      MostIsMost(parts, lo, hi, r, i + 1, k);
    }
  }

  /** Part i above its lower bound, every later part as low as it goes. */
  lemma {:induction false} LowAfter(parts: seq<KeyPart>, lo: seq<int>, hi: seq<int>, i: nat) returns (r: seq<int>)
    requires KeyFits(parts, lo) && KeyFits(parts, hi) && FreeAbove(parts, lo, hi, i)
    ensures RowFits(parts, r) && Inside(r, lo, hi, i)
    ensures forall m | i < m < |parts| :: r[m] == Lowest(parts, hi)[m]
  {
    ExtremesFit(parts, lo, hi);
    r := Lowest(parts, hi)[i :=
      if i < |hi| then hi[i] else if parts[i].kind.Other? then lo[i] + 1 else Hi(parts[i])];
    if !parts[i].kind.Other? {
      TypeEnds(parts[i], 0);
    }
    LowestIsNotAfter(parts, hi, r, i + 1);
  }

  lemma {:induction false} HighAfter(parts: seq<KeyPart>, lo: seq<int>, hi: seq<int>, i: nat) returns (r: seq<int>)
    requires KeyFits(parts, lo) && KeyFits(parts, hi) && FreeBelow(parts, lo, hi, i)
    ensures RowFits(parts, r) && Inside(r, lo, hi, i)
    ensures forall m | i < m < |parts| :: r[m] == Highest(parts, lo)[m]
  {
    ExtremesFit(parts, lo, hi);
    r := Highest(parts, lo)[i :=
      if i < |lo| then lo[i] else if parts[i].kind.Other? then hi[i] - 1 else Lo(parts[i])];
    if !parts[i].kind.Other? {
      TypeEnds(parts[i], 0);
    }
    HighestIsNotBefore(parts, lo, r, i + 1);
  }

  /** The least value of a part is taken by some row. */
  lemma {:induction false} LeastIsReached(parts: seq<KeyPart>, lo: seq<int>, hi: seq<int>, i: nat, k: nat)
    returns (r: seq<int>)
    requires KeyFits(parts, lo) && KeyFits(parts, hi) && NonEmpty(lo, hi, i)
    requires i <= k < |parts| && !parts[k].kind.Other?
    ensures RowFits(parts, r) && Inside(r, lo, hi, i) && r[k] == Least(parts, lo, hi, i, k)
    decreases k - i
  {
    ExtremesFit(parts, lo, hi);
    if i < k && FreeAbove(parts, lo, hi, i) {
      r := LowAfter(parts, lo, hi, i);
    } else if i < k {
      var r' := LeastIsReached(parts, lo, hi, i + 1, k);
      r := r'[i := if i < |lo| then lo[i] else if i < |hi| then hi[i] else r'[i]];
      Frame(r', r, lo, hi, i + 1);
    } else if k >= |lo| {
      r := Lowest(parts, hi);
      LowestIsNotAfter(parts, hi, r, i);
    } else if k < |hi| && lo[k] == hi[k] {
      r := SomeRow(parts, lo, hi, i);
    } else {
      r := Highest(parts, lo)[k := lo[k]];
      HighestIsNotBefore(parts, lo, r, k + 1);
    }
  }

  lemma {:induction false} MostIsReached(parts: seq<KeyPart>, lo: seq<int>, hi: seq<int>, i: nat, k: nat)
    returns (r: seq<int>)
    requires KeyFits(parts, lo) && KeyFits(parts, hi) && NonEmpty(lo, hi, i)
    requires i <= k < |parts| && !parts[k].kind.Other?
    ensures RowFits(parts, r) && Inside(r, lo, hi, i) && r[k] == Most(parts, lo, hi, i, k)
    decreases k - i
  {
    ExtremesFit(parts, lo, hi);
    if i < k && FreeBelow(parts, lo, hi, i) {
      r := HighAfter(parts, lo, hi, i);
    } else if i < k {
      var r' := MostIsReached(parts, lo, hi, i + 1, k);
      r := r'[i := if i < |hi| then hi[i] else if i < |lo| then lo[i] else r'[i]];
      Frame(r', r, lo, hi, i + 1);
    } else if k >= |hi| {
      r := Highest(parts, lo);
      HighestIsNotBefore(parts, lo, r, i);
    } else if k < |lo| && lo[k] == hi[k] {
      r := SomeRow(parts, lo, hi, i);
    } else {
      r := Lowest(parts, hi)[k := hi[k]];
      LowestIsNotAfter(parts, hi, r, k + 1);
    }
  }

  // ----- open bounds as closed ones

  /** The closed bound just below an open one: its last part that can be lowered is, and
      what follows is dropped.  None when nothing lies below. */
  ghost function Pred(parts: seq<KeyPart>, e: seq<int>, i: nat): (h: Option<seq<int>>)
    requires KeyFits(parts, e)
    ensures h.Some? ==> i < |h.value| <= |e| && h.value[..i] == e[..i] && KeyFits(parts, h.value)
    decreases |e| - i
  {
    if i >= |e| then None
    else if Pred(parts, e, i + 1).Some? then
      assert Pred(parts, e, i + 1).value[..i] == e[..i + 1][..i];
      Pred(parts, e, i + 1)
    else if parts[i].kind.Other? || Lo(parts[i]) < e[i] then
      LoweredFits(parts, e, i);
      Some(e[..i] + [e[i] - 1])
    else None
  }

  lemma {:induction false} LoweredFits(parts: seq<KeyPart>, e: seq<int>, i: nat)
    requires KeyFits(parts, e) && i < |e| && (parts[i].kind.Other? || Lo(parts[i]) < e[i])
    ensures Fits(parts[i], e[i] - 1)
  {
    if !parts[i].kind.Other? {
      TypeEnds(parts[i], e[i]);
      TypeEnds(parts[i], e[i] - 1);
    }
  }

  ghost function Succ(parts: seq<KeyPart>, e: seq<int>, i: nat): (h: Option<seq<int>>)
    requires KeyFits(parts, e)
    ensures h.Some? ==> i < |h.value| <= |e| && h.value[..i] == e[..i] && KeyFits(parts, h.value)
    decreases |e| - i
  {
    if i >= |e| then None
    else if Succ(parts, e, i + 1).Some? then
      assert Succ(parts, e, i + 1).value[..i] == e[..i + 1][..i];
      Succ(parts, e, i + 1)
    else if parts[i].kind.Other? || e[i] < Hi(parts[i]) then
      RaisedFits(parts, e, i);
      Some(e[..i] + [e[i] + 1])
    else None
  }

  lemma {:induction false} RaisedFits(parts: seq<KeyPart>, e: seq<int>, i: nat)
    requires KeyFits(parts, e) && i < |e| && (parts[i].kind.Other? || e[i] < Hi(parts[i]))
    ensures Fits(parts[i], e[i] + 1)
  {
    if !parts[i].kind.Other? {
      TypeEnds(parts[i], e[i]);
      TypeEnds(parts[i], e[i] + 1);
    }
  }

  lemma {:induction false} PredMeans(parts: seq<KeyPart>, e: seq<int>, r: seq<int>, i: nat)
    requires KeyFits(parts, e) && RowFits(parts, r)
    ensures Before(r, e, i) <==> Pred(parts, e, i).Some? && NotAfter(r, Pred(parts, e, i).value, i)
    decreases |e| - i
  {
    if i < |e| {
      PredMeans(parts, e, r, i + 1);
      if Pred(parts, e, i + 1).Some? {
        assert Pred(parts, e, i + 1).value[..i + 1][i] == e[..i + 1][i];
      } else if !parts[i].kind.Other? {
        TypeEnds(parts[i], r[i]);
      }
    }
  }

  lemma {:induction false} SuccMeans(parts: seq<KeyPart>, e: seq<int>, r: seq<int>, i: nat)
    requires KeyFits(parts, e) && RowFits(parts, r)
    ensures After(r, e, i) <==> Succ(parts, e, i).Some? && NotBefore(r, Succ(parts, e, i).value, i)
    decreases |e| - i
  {
    if i < |e| {
      SuccMeans(parts, e, r, i + 1);
      if Succ(parts, e, i + 1).Some? {
        assert Succ(parts, e, i + 1).value[..i + 1][i] == e[..i + 1][i];
      } else if !parts[i].kind.Other? {
        TypeEnds(parts[i], r[i]);
      }
    }
  }
}
