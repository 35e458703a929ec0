/** The ordinal ranks of records inside a container: cards inside a lane, lanes
    inside a board. A record is seen here only as a `Slot`: the id of the container
    it belongs to and its `order`. Density, appending and the reorder shifts are
    stated once on sequences of slots; the store projects cards and lanes onto them. */
module Ordering {
  import opened Common

  datatype Slot = Slot(scope: Id, order: int)

  /** Number of records in container `scope`. */
  function Count(s: seq<Slot>, scope: Id): nat
  {
    if s == [] then 0
    else Count(s[..|s| - 1], scope) + (if s[|s| - 1].scope == scope then 1 else 0)
  }

  /** No two records of the container share an order. */
  ghost predicate Distinct(s: seq<Slot>, scope: Id)
  {
    forall i, j :: 0 <= i < |s| && 0 <= j < |s| && i != j && s[i].scope == scope && s[j].scope == scope
      ==> s[i].order != s[j].order
  }

  /** Every record of the container has an order in [0, n), n the container's size. */
  ghost predicate InRange(s: seq<Slot>, scope: Id)
  {
    forall i :: 0 <= i < |s| && s[i].scope == scope ==> 0 <= s[i].order < Count(s, scope)
  }

  /** The dense-ordering invariant of the container: its orders are 0..n-1, each once. */
  ghost predicate Dense(s: seq<Slot>, scope: Id)
  {
    Distinct(s, scope) && InRange(s, scope)
  }

  /** The set of orders used in the container. */
  ghost function OrderSet(s: seq<Slot>, scope: Id): set<int>
  {
    set i | 0 <= i < |s| && s[i].scope == scope :: s[i].order
  }

  /** The set {0, ..., n-1}. */
  ghost function RangeSet(n: nat): (r: set<int>)
    ensures forall x :: x in r <==> 0 <= x < n
  {
    if n == 0 then {} else RangeSet(n - 1) + {n - 1}
  }

  lemma {:induction false} RangeSetSize(n: nat)
    ensures |RangeSet(n)| == n
  {
    if n > 0 {
      var r := RangeSet(n - 1);
      RangeSetSize(n - 1);
      assert RangeSet(n) == r + {n - 1};
      assert n - 1 !in r;
    }
  }

  lemma CountPrefix(s: seq<Slot>, scope: Id)
    requires s != []
    ensures Count(s, scope) == Count(s[..|s| - 1], scope) + (if s[|s| - 1].scope == scope then 1 else 0)
  {
  }

  lemma {:induction false} CountBound(s: seq<Slot>, scope: Id)
    ensures Count(s, scope) <= |s|
  {
    if s != [] {
      CountBound(s[..|s| - 1], scope);
    }
  }

  /** A container holding no record has size 0, and conversely. */
  lemma {:induction false} CountZero(s: seq<Slot>, scope: Id)
    ensures Count(s, scope) == 0 <==> forall i :: 0 <= i < |s| ==> s[i].scope != scope
  {
    if s != [] {
      var p := s[..|s| - 1];
      CountZero(p, scope);
      assert forall i :: 0 <= i < |p| ==> p[i] == s[i];
    }
  }

  lemma {:induction false} CountAppend(s: seq<Slot>, x: Slot, scope: Id)
    ensures Count(s + [x], scope) == Count(s, scope) + (if x.scope == scope then 1 else 0)
  {
    assert (s + [x])[..|s + [x]| - 1] == s;
  }

  /** Distinct orders fill a set as large as the container. */
  lemma {:induction false} OrderSetSize(s: seq<Slot>, scope: Id)
    requires Distinct(s, scope)
    ensures |OrderSet(s, scope)| == Count(s, scope)
  {
    if s != [] {
      var p := s[..|s| - 1];
      var last := s[|s| - 1];
      assert forall i :: 0 <= i < |p| ==> p[i] == s[i];
      assert Distinct(p, scope);
      OrderSetSize(p, scope);
      var extra := if last.scope == scope then {last.order} else {};
      assert OrderSet(s, scope) == OrderSet(p, scope) + extra by {
        forall x | x in OrderSet(s, scope) ensures x in OrderSet(p, scope) + extra {
          var i :| 0 <= i < |s| && s[i].scope == scope && s[i].order == x;
          if i < |p| {
            assert p[i] == s[i];
          }
        }
      }
      if last.scope == scope {
        assert last.order !in OrderSet(p, scope) by {
          forall i | 0 <= i < |p| && p[i].scope == scope ensures p[i].order != last.order {
            assert s[i] == p[i] && i != |s| - 1;
          }
        }
      }
    }
  }

  /** The dense-ordering invariant says exactly that the container's orders are
      pairwise distinct and make up the set {0, ..., n-1}. */
  lemma DenseIsExactRange(s: seq<Slot>, scope: Id)
    ensures Dense(s, scope) <==> Distinct(s, scope) && OrderSet(s, scope) == RangeSet(Count(s, scope))
  {
    var n := Count(s, scope);
    if Dense(s, scope) {
      OrderSetSize(s, scope);
      RangeSetSize(n);
      var a, b := OrderSet(s, scope), RangeSet(n);
      assert a <= b;
      assert |b - a| == |b| - |a|;
      assert b - a == {};
    }
    if Distinct(s, scope) && OrderSet(s, scope) == RangeSet(n) {
      forall i | 0 <= i < |s| && s[i].scope == scope
        ensures 0 <= s[i].order < n
      {
        assert s[i].order in OrderSet(s, scope);
      }
    }
  }

  /** In a dense container, every order 0..n-1 is held by some record. */
  lemma DenseHasEveryOrder(s: seq<Slot>, scope: Id, v: int) returns (i: nat)
    requires Dense(s, scope) && 0 <= v < Count(s, scope)
    ensures i < |s| && s[i].scope == scope && s[i].order == v
  {
    DenseIsExactRange(s, scope);
    assert v in RangeSet(Count(s, scope));
    assert v in OrderSet(s, scope);
    i :| 0 <= i < |s| && s[i].scope == scope && s[i].order == v;
  }

  // ---------------------------------------------------------------------------
  // The highest order, as `findFirst({ where: { <scope> }, orderBy: { order: "desc" } })`
  // reads it, and the order a newly created record receives.

  /** The highest order in the container, `None` when it is empty. */
  function MaxOrder(s: seq<Slot>, scope: Id): (r: Option<int>)
    ensures r.None? <==> forall i :: 0 <= i < |s| ==> s[i].scope != scope
    ensures r.Some? ==> exists i :: 0 <= i < |s| && s[i].scope == scope && s[i].order == r.value
    ensures r.Some? ==> forall i :: 0 <= i < |s| && s[i].scope == scope ==> s[i].order <= r.value
  {
    if s == [] then None
    else
      var p := s[..|s| - 1];
      var last := s[|s| - 1];
      assert forall i :: 0 <= i < |p| ==> p[i] == s[i];
      var m := MaxOrder(p, scope);
      if last.scope != scope then m
      else if m.None? || m.value < last.order then Some(last.order)
      else m
  }

  /** `lastCard ? lastCard.order + 1 : 0` */
  function NextOrder(last: Option<int>): int
  {
    if last.Some? then last.value + 1 else 0
  }

  /** Reads the highest order of a container with one pass over the table. */
  method LastOrder(s: seq<Slot>, scope: Id) returns (r: Option<int>)
    ensures r == MaxOrder(s, scope)
  {
    r := None;
    var k := 0;
    while k < |s|
      invariant 0 <= k <= |s|
      invariant r == MaxOrder(s[..k], scope)
    {
      assert s[..k + 1][..k] == s[..k];
      if s[k].scope == scope && (r.None? || r.value < s[k].order) {
        r := Some(s[k].order);
      }
      k := k + 1;
    }
    assert s[..k] == s;
  }

  /** In a dense container, max + 1 (or 0 when empty) is the container's size. */
  lemma NextOrderOfDense(s: seq<Slot>, scope: Id)
    requires Dense(s, scope)
    ensures NextOrder(MaxOrder(s, scope)) == Count(s, scope)
  {
    var n := Count(s, scope);
    CountZero(s, scope);
    if n > 0 {
      var i := DenseHasEveryOrder(s, scope, n - 1);
    }
  }

  /** Appending a record at order n keeps its container dense, and leaves other containers as they were. */
  lemma AppendKeepsDense(s: seq<Slot>, scope: Id, other: Id)
    requires Dense(s, scope)
    ensures Dense(s + [Slot(scope, Count(s, scope))], scope)
    ensures other != scope ==> (Dense(s + [Slot(scope, Count(s, scope))], other) <==> Dense(s, other))
  {
    var x := Slot(scope, Count(s, scope));
    var t := s + [x];
    CountAppend(s, x, scope);
    forall i, j | 0 <= i < |t| && 0 <= j < |t| && i != j && t[i].scope == scope && t[j].scope == scope
      ensures t[i].order != t[j].order
    {
      if i < |s| && j < |s| {
        assert t[i] == s[i] && t[j] == s[j];
      } else if i < |s| {
        assert t[i] == s[i];
      } else {
        assert t[j] == s[j];
      }
    }
    forall i | 0 <= i < |t| && t[i].scope == scope ensures 0 <= t[i].order < Count(t, scope) {
      if i < |s| {
        assert t[i] == s[i];
      }
    }
    if other != scope {
      AppendOtherKeepsDensity(s, x, other);
    }
  }

  /** Appending a record of another container changes nothing about this one's density. */
  lemma AppendOtherKeepsDensity(s: seq<Slot>, x: Slot, other: Id)
    requires x.scope != other
    ensures Dense(s + [x], other) <==> Dense(s, other)
  {
    var t := s + [x];
    CountAppend(s, x, other);
    assert forall i :: 0 <= i < |s| ==> t[i] == s[i];
  }

  // ---------------------------------------------------------------------------
  // `updateMany({ where: { <scope>, order: <window> }, data: { order: { increment/decrement } } })`

  /** The window `lo <= order` and, when `hi` is given, `order <= hi`. */
  predicate InWindow(order: int, lo: int, hi: Option<int>)
  {
    lo <= order && (hi.None? || order <= hi.value)
  }

  /** One row under one `updateMany`: shifted by `delta` when it matches the filter. */
  function Shift(x: Slot, scope: Id, lo: int, hi: Option<int>, delta: int): (r: Slot)
    ensures r.scope == x.scope
  {
    if x.scope == scope && InWindow(x.order, lo, hi) then Slot(x.scope, x.order + delta) else x
  }

  /** What the card PUT's `updateMany` calls do to a row `x` other than the moved one,
      when the moved record goes from `from` to `to`. */
  function Moved(x: Slot, from: Slot, to: Slot): (r: Slot)
    ensures r.scope == x.scope
  {
    if from.scope != to.scope then
      // old container: order > cur decremented; new container: order >= t incremented
      Shift(Shift(x, from.scope, from.order + 1, None, -1), to.scope, to.order, None, 1)
    else if to.order > from.order then
      // cur < order <= t decremented
      Shift(x, from.scope, from.order + 1, Some(to.order), -1)
    else if to.order < from.order then
      // t <= order < cur incremented
      Shift(x, from.scope, to.order, Some(from.order - 1), 1)
    else x
  }

  /** The table after the record at index `m` is moved to `to`. */
  function MoveAll(s: seq<Slot>, m: nat, to: Slot): (r: seq<Slot>)
    requires m < |s|
    ensures |r| == |s| && r[m] == to
    ensures forall i :: 0 <= i < |s| && i != m ==> r[i] == Moved(s[i], s[m], to)
  {
    seq(|s|, i requires 0 <= i < |s| => if i == m then to else Moved(s[i], s[m], to))
  }

  /** How a container's size changes when every row keeps its container except row m. */
  lemma {:induction false} CountPointwise(s: seq<Slot>, r: seq<Slot>, m: nat, scope: Id)
    requires |r| == |s| && m < |s|
    requires forall i :: 0 <= i < |s| && i != m ==> (r[i].scope == scope <==> s[i].scope == scope)
    ensures Count(r, scope) + (if s[m].scope == scope then 1 else 0)
         == Count(s, scope) + (if r[m].scope == scope then 1 else 0)
  {
    var n := |s|;
    var sp, rp := s[..n - 1], r[..n - 1];
    if m == n - 1 {
      CountSame(sp, rp, scope);
    } else {
      CountPointwise(sp, rp, m, scope);
    }
  }

  lemma {:induction false} CountSame(s: seq<Slot>, r: seq<Slot>, scope: Id)
    requires |r| == |s|
    requires forall i :: 0 <= i < |s| ==> (r[i].scope == scope <==> s[i].scope == scope)
    ensures Count(r, scope) == Count(s, scope)
  {
    if s != [] {
      CountSame(s[..|s| - 1], r[..|r| - 1], scope);
    }
  }

  /** Density of a container depends only on the rows inside it. */
  lemma SameContainerSameDensity(s: seq<Slot>, r: seq<Slot>, scope: Id)
    requires |r| == |s|
    requires forall i :: 0 <= i < |s| && (s[i].scope == scope || r[i].scope == scope) ==> r[i] == s[i]
    ensures Count(r, scope) == Count(s, scope)
    ensures Dense(r, scope) <==> Dense(s, scope)
  {
    CountSame(s, r, scope);
  }

  /** The main property of the reorder protocol: when the source and destination
      containers are dense and the target position is in range — below the size for
      a move inside one container, at most the size for a move into another — the
      move keeps both containers dense. Containers that are neither source nor
      destination are not touched. */
  lemma MoveKeepsDense(s: seq<Slot>, m: nat, to: Slot)
    requires m < |s|
    requires Dense(s, s[m].scope) && Dense(s, to.scope)
    requires 0 <= to.order
    requires s[m].scope == to.scope ==> to.order < Count(s, to.scope)
    requires s[m].scope != to.scope ==> to.order <= Count(s, to.scope)
    ensures Dense(MoveAll(s, m, to), s[m].scope) && Dense(MoveAll(s, m, to), to.scope)
    ensures forall i :: 0 <= i < |s| && s[i].scope != s[m].scope && s[i].scope != to.scope
              ==> MoveAll(s, m, to)[i] == s[i]
  {
    var r := MoveAll(s, m, to);
    var from := s[m];
    if from.scope == to.scope {
      MoveWithinKeepsDense(s, m, to);
    } else {
      MoveAcrossKeepsSource(s, m, to);
      MoveAcrossKeepsTarget(s, m, to);
    }
  }

  lemma MoveWithinKeepsDense(s: seq<Slot>, m: nat, to: Slot)
    requires m < |s| && s[m].scope == to.scope
    requires Dense(s, to.scope) && 0 <= to.order < Count(s, to.scope)
    ensures Dense(MoveAll(s, m, to), to.scope)
  {
    var r := MoveAll(s, m, to);
    CountPointwise(s, r, m, to.scope);
    if to.order == s[m].order {
      assert r == s;
    } else {
      RankedWithin(s, m, to);
      MapKeepsDense(s, r, m, to.scope);
    }
  }

  /** Inside one container, a move by `t` from `cur` gives every other row of the
      container a new order that is in range and differs from `t` and from the
      other rows' new orders. */
  lemma RankedWithin(s: seq<Slot>, m: nat, to: Slot)
    requires m < |s| && s[m].scope == to.scope && to.order != s[m].order
    requires Dense(s, to.scope) && 0 <= to.order < Count(s, to.scope)
    ensures forall i :: 0 <= i < |s| && i != m && s[i].scope == to.scope ==>
      0 <= MoveAll(s, m, to)[i].order < Count(s, to.scope) && MoveAll(s, m, to)[i].order != to.order
    ensures forall i, j ::
      (0 <= i < |s| && 0 <= j < |s| && i != m && j != m && i != j && s[i].scope == to.scope && s[j].scope == to.scope)
      ==> MoveAll(s, m, to)[i].order != MoveAll(s, m, to)[j].order
  {
    var L, cur, t := to.scope, s[m].order, to.order;
    forall i | 0 <= i < |s| && i != m && s[i].scope == L
      ensures s[i].order != cur
    {
      assert s[i].order != s[m].order;
    }
  }

  /** A container stays dense when its size is unchanged, the row m holds an
      in-range order, and the other rows hold in-range orders distinct from it
      and from each other. */
  lemma MapKeepsDense(s: seq<Slot>, r: seq<Slot>, m: nat, L: Id)
    requires |r| == |s| && m < |s| && r[m].scope == L && s[m].scope == L
    requires forall i :: 0 <= i < |s| ==> (r[i].scope == L <==> s[i].scope == L)
    requires Count(r, L) == Count(s, L) && 0 <= r[m].order < Count(s, L)
    requires forall i :: 0 <= i < |s| && i != m && s[i].scope == L ==>
      0 <= r[i].order < Count(s, L) && r[i].order != r[m].order
    requires forall i, j ::
      (0 <= i < |s| && 0 <= j < |s| && i != m && j != m && i != j && s[i].scope == L && s[j].scope == L)
      ==> r[i].order != r[j].order
    ensures Dense(r, L)
  {
  }

  lemma MoveAcrossKeepsSource(s: seq<Slot>, m: nat, to: Slot)
    requires m < |s| && s[m].scope != to.scope
    requires Dense(s, s[m].scope)
    ensures Dense(MoveAll(s, m, to), s[m].scope)
  {
    var r := MoveAll(s, m, to);
    var L, cur := s[m].scope, s[m].order;
    CountPointwise(s, r, m, L);
    var n := Count(s, L);
    assert Count(r, L) == n - 1;
    forall i | 0 <= i < |r| && r[i].scope == L
      ensures 0 <= r[i].order < n - 1
    {
      assert i != m;
      MovedOutOfSource(s[i], s[m], to);
      assert s[i].order != cur;
    }
    forall i, j | 0 <= i < |r| && 0 <= j < |r| && i != j && r[i].scope == L && r[j].scope == L
      ensures r[i].order != r[j].order
    {
      MovedOutOfSource(s[i], s[m], to);
      MovedOutOfSource(s[j], s[m], to);
      assert s[i].order != s[j].order;
    }
  }

  /** A cross-container move closes the gap in the source container: its rows
      after the old position move down by one. */
  lemma MovedOutOfSource(x: Slot, from: Slot, to: Slot)
    requires from.scope != to.scope && x.scope == from.scope
    ensures Moved(x, from, to) == Slot(x.scope, if x.order > from.order then x.order - 1 else x.order)
  {
  }

  lemma MoveAcrossKeepsTarget(s: seq<Slot>, m: nat, to: Slot)
    requires m < |s| && s[m].scope != to.scope
    requires Dense(s, to.scope) && 0 <= to.order <= Count(s, to.scope)
    ensures Dense(MoveAll(s, m, to), to.scope)
  {
    var r := MoveAll(s, m, to);
    var L := to.scope;
    CountPointwise(s, r, m, L);
    var n := Count(s, L);
    assert Count(r, L) == n + 1;
    forall i | 0 <= i < |r| && r[i].scope == L
      ensures 0 <= r[i].order < n + 1
    {
      if i != m {
        MovedIntoTarget(s[i], s[m], to);
      }
    }
    forall i, j | 0 <= i < |r| && 0 <= j < |r| && i != j && r[i].scope == L && r[j].scope == L
      ensures r[i].order != r[j].order
    {
      if i != m {
        MovedIntoTarget(s[i], s[m], to);
      }
      if j != m {
        MovedIntoTarget(s[j], s[m], to);
      }
      if i != m && j != m {
        assert s[i].order != s[j].order;
      }
    }
  }

  /** A cross-container move shifts the target container's rows at or after the
      new position up by one and leaves the rest where they are. */
  lemma MovedIntoTarget(x: Slot, from: Slot, to: Slot)
    requires from.scope != to.scope && x.scope == to.scope
    ensures Moved(x, from, to) == Slot(x.scope, if x.order >= to.order then x.order + 1 else x.order)
  {
  }

  // ---------------------------------------------------------------------------
  // Writes that the source makes without shifting any sibling.

  /** Writing a new order into one record of a dense container, with no sibling
      shifted, keeps the container dense only when the order does not change. */
  lemma RewriteOrderKeepsDenseOnlyIfUnchanged(s: seq<Slot>, m: nat, v: int)
    requires m < |s| && Dense(s, s[m].scope)
    ensures Dense(s[m := Slot(s[m].scope, v)], s[m].scope) <==> v == s[m].order
  {
    var L := s[m].scope;
    var r := s[m := Slot(L, v)];
    CountPointwise(s, r, m, L);
    if v != s[m].order && 0 <= v < Count(s, L) {
      var j := DenseHasEveryOrder(s, L, v);
      assert j != m && r[j].order == r[m].order;
    }
    if v == s[m].order {
      assert r == s;
    }
  }

  /** Removing one record (a delete, which compacts nothing) keeps its container
      dense exactly when the record held the highest order n-1. */
  lemma RemoveKeepsDenseOnlyIfLast(s: seq<Slot>, m: nat)
    requires m < |s| && Dense(s, s[m].scope)
    ensures Dense(RemoveAt(s, m), s[m].scope) <==> s[m].order == Count(s, s[m].scope) - 1
  {
    if s[m].order == Count(s, s[m].scope) - 1 {
      RemoveLastKeepsDense(s, m);
    } else {
      RemoveOtherBreaksDense(s, m);
    }
  }

  lemma RemoveOtherBreaksDense(s: seq<Slot>, m: nat)
    requires m < |s| && Dense(s, s[m].scope) && s[m].order != Count(s, s[m].scope) - 1
    ensures !Dense(RemoveAt(s, m), s[m].scope)
  {
    var L := s[m].scope;
    var r := RemoveAt(s, m);
    var n := Count(s, L);
    RemoveCount(s, m, L);
    var j := DenseHasEveryOrder(s, L, n - 1);
    var k := if j < m then j else j - 1;
    assert r[k] == s[j];
    assert r[k].order == Count(r, L);
  }

  lemma RemoveLastKeepsDense(s: seq<Slot>, m: nat)
    requires m < |s| && Dense(s, s[m].scope) && s[m].order == Count(s, s[m].scope) - 1
    ensures Dense(RemoveAt(s, m), s[m].scope)
  {
    var L := s[m].scope;
    var r := RemoveAt(s, m);
    var n := Count(s, L);
    RemoveCount(s, m, L);
    forall i | 0 <= i < |r| && r[i].scope == L
      ensures 0 <= r[i].order < n - 1
    {
      var k := if i < m then i else i + 1;
      assert r[i] == s[k] && k != m;
    }
    forall i, j | 0 <= i < |r| && 0 <= j < |r| && i != j && r[i].scope == L && r[j].scope == L
      ensures r[i].order != r[j].order
    {
      var a := if i < m then i else i + 1;
      var b := if j < m then j else j + 1;
      assert r[i] == s[a] && r[j] == s[b] && a != b;
    }
  }

  lemma {:induction false} RemoveCount(s: seq<Slot>, m: nat, scope: Id)
    requires m < |s|
    ensures Count(RemoveAt(s, m), scope) + (if s[m].scope == scope then 1 else 0) == Count(s, scope)
  {
    var r := RemoveAt(s, m);
    if m == |s| - 1 {
      assert r == s[..|s| - 1];
    } else {
      var p := s[..|s| - 1];
      RemoveCount(p, m, scope);
      assert RemoveAt(p, m) == r[..|r| - 1];
      assert r[|r| - 1] == s[|s| - 1];
    }
  }

  /** Moving a record into another container by writing its container alone (no
      sibling shifted) breaks the source container unless the record held its
      highest order. */
  lemma RelabelBreaksSource(s: seq<Slot>, m: nat, scope: Id)
    requires m < |s| && Dense(s, s[m].scope) && scope != s[m].scope
    ensures Dense(s[m := Slot(scope, s[m].order)], s[m].scope) <==> s[m].order == Count(s, s[m].scope) - 1
  {
    var L := s[m].scope;
    var r := s[m := Slot(scope, s[m].order)];
    var n := Count(s, L);
    CountPointwise(s, r, m, L);
    assert Count(r, L) == n - 1;
    if s[m].order != n - 1 {
      var j := DenseHasEveryOrder(s, L, n - 1);
      assert j != m && r[j] == s[j];
    } else {
      forall i | 0 <= i < |r| && r[i].scope == L
        ensures 0 <= r[i].order < n - 1
      {
        assert i != m && r[i] == s[i];
      }
      forall i, j | 0 <= i < |r| && 0 <= j < |r| && i != j && r[i].scope == L && r[j].scope == L
        ensures r[i].order != r[j].order
      {
        assert r[i] == s[i] && r[j] == s[j];
      }
    }
  }

  /** A move inside one container to position n (one past the end) leaves the
      container not dense: the moved record holds n while the size stays n. */
  lemma MoveWithinToSizeBreaksDense(s: seq<Slot>, m: nat)
    requires m < |s|
    ensures !Dense(MoveAll(s, m, Slot(s[m].scope, Count(s, s[m].scope))), s[m].scope)
  {
    var L := s[m].scope;
    var to := Slot(L, Count(s, L));
    var r := MoveAll(s, m, to);
    CountPointwise(s, r, m, L);
    assert Count(r, L) == Count(s, L);
    assert r[m].scope == L && r[m].order == Count(r, L);
    assert !InRange(r, L);
  }
}
