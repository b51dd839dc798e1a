/** The exclude filter: a set of name components kept as an ordered map of bounds with ANY flags. */
module Exclude {
  import opened Octets
  import opened Sequences

  /** The characters of a component, each as its rank among the 256 values that `char` has on the target. */
  type Component = Bytes

  // The order of components

  function CompareBytes(a: Component, b: Component): int
    requires |a| == |b|
  {
    if a == [] then 0 else if a[0] < b[0] then -1 else if a[0] > b[0] then 1 else CompareBytes(a[1..], b[1..])
  }

  /** Shorter components come first, components of one length in the order of their bytes. */
  function Compare(a: Component, b: Component): int {
    if |a| < |b| then -1 else if |a| > |b| then 1 else CompareBytes(a, b)
  }

  predicate Leq(a: Component, b: Component) {
    Compare(a, b) <= 0
  }

  predicate Less(a: Component, b: Component) {
    Compare(a, b) < 0
  }

  lemma {:induction false} CompareBytesOrders(a: Component, b: Component, c: Component)
    requires |a| == |b| == |c|
    ensures CompareBytes(a, b) == 0 <==> a == b
    ensures CompareBytes(a, b) == -CompareBytes(b, a)
    ensures CompareBytes(a, b) <= 0 && CompareBytes(b, c) <= 0 ==> CompareBytes(a, c) <= 0
  {
    if a == [] {
    } else {
      CompareBytesOrders(a[1..], b[1..], c[1..]);
      assert a == [a[0]] + a[1..] && b == [b[0]] + b[1..];
    }
  }

  /** `compare` is a total order in which only equal components compare equal. */
  lemma CompareOrders(a: Component, b: Component, c: Component)
    ensures Compare(a, b) == 0 <==> a == b
    ensures Compare(a, b) == -Compare(b, a)
    ensures Compare(a, b) <= 0 && Compare(b, c) <= 0 ==> Compare(a, c) <= 0
  {
    if |a| == |b| {
      CompareBytesOrders(a, b, if |c| == |a| then c else a);
    }
  }

  lemma TotalOrder()
    ensures forall a, b :: Leq(a, b) || Leq(b, a)
    ensures forall a, b :: Leq(a, b) && Leq(b, a) ==> a == b
    ensures forall a, b :: Less(a, b) <==> !Leq(b, a)
    ensures forall a, b, c :: Leq(a, b) && Leq(b, c) ==> Leq(a, c)
  {
    forall a, b
      ensures (Leq(a, b) || Leq(b, a)) && (Leq(a, b) && Leq(b, a) ==> a == b) && (Less(a, b) <==> !Leq(b, a))
    {
      CompareOrders(a, b, b);
    }
    forall a, b, c ensures Leq(a, b) && Leq(b, c) ==> Leq(a, c) {
      CompareOrders(a, b, c);
    }
  }

  lemma {:induction false} CompareLast(a: Component, x: Byte, b: Component, y: Byte)
    requires |a| == |b|
    ensures var c := CompareBytes(a, b);
            CompareBytes(a + [x], b + [y]) == if c != 0 then c else if x < y then -1 else if x > y then 1 else 0
  {
    if a == [] {
    } else {
      assert (a + [x])[1..] == a[1..] + [x] && (b + [y])[1..] == b[1..] + [y];
      CompareLast(a[1..], x, b[1..], y);
    }
  }

  /** The component that follows `c` in the order. */
  function Next(c: Component): Component {
    if c == [] then [0]
    else if c[|c| - 1] < 255 then Up(c) + [c[|c| - 1] + 1]
    else Next(Up(c)) + [0]
  }

  lemma {:induction false} NextLength(c: Component)
    ensures |c| <= |Next(c)| <= |c| + 1 && Next(c) != []
  {
    if c == [] {
    } else {
      NextLength(Up(c));
    }
  }

  lemma {:induction false} NextIsLater(c: Component)
    ensures Less(c, Next(c))
  {
    if c == [] {
    } else {
      var last, n := c[|c| - 1], Next(c);
      NextLength(c);
      SplitLast(c);
      SplitLast(n);
      if last < 255 {
        CompareBytesOrders(Up(c), Up(c), Up(c));
        assert Up(n) == Up(c);
      } else {
        NextIsLater(Up(c));
        assert Up(n) == Next(Up(c));
      }
      if |n| == |c| {
        CompareLast(Up(c), last, Up(n), n[|n| - 1]);
      }
    }
  }

  /** Nothing lies between a component and the next. */
  lemma {:induction false} NothingBetween(c: Component, d: Component)
    requires Less(c, d)
    ensures Leq(Next(c), d)
    decreases |c|
  {
    if c == [] {
      assert |d| == 1 ==> CompareBytes([0][1..], d[1..]) == 0;
    } else {
      var n := Next(c);
      NextLength(c);
      SplitLast(c);
      SplitLast(d);
      SplitLast(n);
      if |d| == |c| {
        CompareLast(Up(c), c[|c| - 1], Up(d), d[|d| - 1]);
      }
      if c[|c| - 1] < 255 {
        assert Up(n) == Up(c);
      } else {
        assert Up(n) == Next(Up(c));
        NothingBetween(Up(c), Up(d));
      }
      if |d| == |n| {
        CompareLast(Up(n), n[|n| - 1], Up(d), d[|d| - 1]);
      }
    }
  }

  // Bounds

  type Bounds = map<Component, bool>

  /** `k` is the greatest key up to `c`: what `lower_bound` finds in the descending map. */
  predicate IsFloor(m: Bounds, c: Component, k: Component) {
    k in m && Leq(k, c) && forall j | j in m :: Leq(j, c) ==> Leq(j, k)
  }

  lemma {:induction false} FloorExists(m: Bounds, c: Component, j: Component) returns (k: Component)
    requires j in m && Leq(j, c)
    ensures IsFloor(m, c, k)
    decreases m
  {
    TotalOrder();
    var rest := m - {j};
    if i :| i in rest && Leq(i, c) {
      k := FloorExists(rest, c, i);
      k := if Leq(j, k) then k else j;
      forall x | x in m && Leq(x, c) ensures Leq(x, k) {
        assert x == j || x in rest;
      }
    } else {
      k := j;
      assert forall x | x in m :: x == j || x in rest;
    }
  }

  ghost function Floor(m: Bounds, c: Component): (f: Option<Component>)
    ensures f.Some? ==> IsFloor(m, c, f.value)
    ensures f.None? ==> forall j | j in m :: !Leq(j, c)
  {
    if j :| j in m && Leq(j, c) then
      assert exists k :: IsFloor(m, c, k) by { var k := FloorExists(m, c, j); }
      var k :| IsFloor(m, c, k);
      Some(k)
    else None
  }

  lemma FloorUnique(m: Bounds, c: Component, k: Component)
    requires IsFloor(m, c, k)
    ensures Floor(m, c) == Some(k)
  {
    TotalOrder();
    assert Leq(k, c);
  }

  /** The set that the filter denotes. */
  ghost predicate Excluded(m: Bounds, c: Component) {
    var f := Floor(m, c); f.Some? && (m[f.value] || f.value == c)
  }

  /** `c` lies at or after a bound with the ANY flag, with no bound in between. */
  ghost predicate UnderAny(m: Bounds, c: Component) {
    var f := Floor(m, c); f.Some? && m[f.value]
  }

  /** Both ends of a range lie under one and the same ANY bound. */
  ghost predicate SharedAny(m: Bounds, from: Component, to: Component) {
    UnderAny(m, from) && Floor(m, to) == Floor(m, from)
  }

  /** The bound that `from` comes to lie under when everything from `from` on is excluded. */
  ghost function Start(m: Bounds, from: Component): Component {
    if UnderAny(m, from) then Floor(m, from).value else from
  }

  /** The bounds without those above `lo` and not above `hi`. */
  function EraseBetween(m: Bounds, lo: Component, hi: Component): Bounds {
    map k | k in m && (Leq(k, lo) || !Leq(k, hi)) :: m[k]
  }

  lemma OneMore(m: Bounds, c: Component, d: Component)
    requires !Excluded(m, c)
    ensures Excluded(m[c := false], d) <==> Excluded(m, d) || d == c
  {
    TotalOrder();
    if c in m {
      FloorUnique(m, c, c);
    }
    var m' := m[c := false];
    var f := Floor(m, d);
    if Leq(c, d) && (f.None? || Leq(f.value, c)) {
      FloorUnique(m', d, c);
      if f.Some? && f.value != d && m[f.value] {
        FloorUnique(m, c, f.value);
      }
    } else if f.Some? {
      FloorUnique(m', d, f.value);
    }
  }

  /** Starting an ANY range at `from` changes nothing below `from`, and puts `from` under the start. */
  lemma Opened(m: Bounds, from: Component, d: Component)
    requires Less(d, from)
    ensures Floor(m[Start(m, from) := true], d) == Floor(m, d)
    ensures Excluded(m[Start(m, from) := true], d) <==> Excluded(m, d)
  {
    TotalOrder();
    var m' := m[Start(m, from) := true];
    if UnderAny(m, from) {
      assert m' == m;
    } else if Floor(m, d).Some? {
      FloorUnique(m', d, Floor(m, d).value);
    }
  }

  /** With all later bounds gone, everything from the start on is excluded. */
  lemma AllAfter(m: Bounds, from: Component, d: Component)
    ensures var s := Start(m, from);
            var m' := map k | k in m[s := true] && Leq(k, s) :: m[s := true][k];
            Excluded(m', d) <==> Excluded(m, d) || Leq(from, d)
  {
    TotalOrder();
    var s := Start(m, from);
    var m' := map k | k in m[s := true] && Leq(k, s) :: m[s := true][k];
    if Leq(s, d) {
      FloorUnique(m', d, s);
      if Less(d, from) {
        FloorUnique(m, d, s);
      }
    } else if Floor(m, d).Some? {
      FloorUnique(m', d, Floor(m, d).value);
    }
  }

  class Filter {
    var bounds: Bounds

    constructor ()
      ensures bounds == map[] && forall c :: !Excluded(bounds, c)
    {
      bounds := map[];
    }

    method LowerBound(c: Component) returns (f: Option<Component>)
      ensures f == Floor(bounds, c)
    {
      if j :| j in bounds && Leq(j, c) {
        assert exists k :: IsFloor(bounds, c, k) by { var k := FloorExists(bounds, c, j); }
        var k :| k in bounds && IsFloor(bounds, c, k);
        FloorUnique(bounds, c, k);
        return Some(k);
      }
      f := None;
    }

    method IsExcluded(c: Component) returns (r: bool)
      ensures r <==> Excluded(bounds, c)
    {
      var f := LowerBound(c);
      if f.None? {
        return false;
      }
      r := if bounds[f.value] then true else f.value == c;
    }

    method ExcludeOne(c: Component)
      modifies this
      ensures forall d :: Excluded(bounds, d) <==> old(Excluded(bounds, d)) || d == c
    {
      var there := IsExcluded(c);
      if !there {
        forall d ensures Excluded(bounds[c := false], d) <==> Excluded(bounds, d) || d == c {
          OneMore(bounds, c, d);
        }
        bounds := bounds[c := false];
      }
    }

    /** Makes sure that `from` lies under an ANY bound, and returns that bound. */
    method Open(from: Component) returns (s: Component)
      modifies this
      ensures s == Start(old(bounds), from) && bounds == old(bounds)[s := true]
    {
      var f := LowerBound(from);
      if f.None? || !bounds[f.value] {
        bounds := bounds[from := true];
        return from;
      }
      s := f.value;
      assert bounds[s := true] == bounds;
    }

    method ExcludeAfter(from: Component)
      modifies this
      ensures forall d :: Excluded(bounds, d) <==> old(Excluded(bounds, d)) || Leq(from, d)
    {
      ghost var m := bounds;
      var s := Open(from);
      bounds := map k | k in bounds && Leq(k, s) :: bounds[k];
      forall d ensures Excluded(bounds, d) <==> Excluded(m, d) || Leq(from, d) {
        AllAfter(m, from, d);
      }
    }

    /** The filter gains exactly [from, to], but a shared ANY bound is cut off after `to`. */
    method ExcludeRange(from: Component, to: Component) returns (ok: bool)
      modifies this
      ensures ok <==> Less(from, to)
      ensures !ok ==> bounds == old(bounds)
      ensures ok ==> forall d :: Excluded(bounds, d) <==> InRange(old(bounds), from, to, d)
    {
      if Leq(to, from) {
        TotalOrder();
        return false;
      }
      TotalOrder();
      ghost var m := bounds;
      var s := Open(from);
      ghost var open := bounds;
      assert s in open && Leq(s, from) && Leq(s, to);
      var newTo := LowerBound(to);
      if newTo.value == s || !bounds[newTo.value] {
        if to !in bounds {
          bounds := bounds[to := false];
        }
        bounds := map k | k in bounds && (Leq(k, s) || !Less(k, to)) :: bounds[k];
        forall d ensures Excluded(bounds, d) <==> InRange(m, from, to, d) {
          CutRange(m, from, to, bounds, d);
        }
      } else {
        bounds := EraseBetween(bounds, s, newTo.value);
        forall d ensures Excluded(bounds, d) <==> InRange(m, from, to, d) {
          JoinedRange(m, from, to, bounds, d);
        }
      }
      ok := true;
    }

    method ExcludeBefore(to: Component) returns (ok: bool)
      modifies this
      ensures ok <==> to != []
      ensures ok ==> forall d :: Excluded(bounds, d) <==> InRange(old(bounds), [], to, d)
    {
      CompareOrders([], to, to);
      ok := ExcludeRange([], to);
    }
  }

  ghost predicate InRange(m: Bounds, from: Component, to: Component, d: Component) {
    && (Excluded(m, d) || (Leq(from, d) && Leq(d, to)))
    && !(SharedAny(m, from, to) && Less(to, d) && Floor(m, d) == Floor(m, from))
  }

  /** The range ends with its own bound `to`. */
  lemma CutRange(m: Bounds, from: Component, to: Component, m': Bounds, d: Component)
    requires Less(from, to)
    requires var s := Start(m, from);
             var open := m[s := true];
             var f := Floor(open, to);
             var withTo := if to in open then open else open[to := false];
             && f.Some? && (f.value == s || !open[f.value])
             && m' == map k | k in withTo && (Leq(k, s) || !Less(k, to)) :: withTo[k]
    ensures Excluded(m', d) <==> InRange(m, from, to, d)
  {
    TotalOrder();
    var s := Start(m, from);
    var open := m[s := true];
    var f := Floor(open, to).value;
    if Less(d, s) {
      Opened(m, from, d);
      BelowStart(m, from, m', d);
    } else if Less(d, to) {
      FloorUnique(m', d, s);
      if Less(d, from) {
        FloorUnique(m, d, s);
      }
    } else if d == to {
      FloorUnique(m', to, to);
    } else {
      var g := Floor(open, d).value;
      if Less(to, g) {
        FloorUnique(m', d, g);
        FloorUnique(m, d, g);
      } else {
        FloorUnique(open, to, g);
        FloorUnique(m', d, to);
        AfterStart(m, from, to, d);
      }
    }
  }

  lemma BelowStart(m: Bounds, from: Component, m': Bounds, d: Component)
    requires var s := Start(m, from);
             && Less(d, s)
             && (forall k | Less(k, s) :: k in m' <==> k in m)
             && (forall k | Less(k, s) && k in m :: m'[k] == m[k])
    ensures Excluded(m', d) <==> Excluded(m, d)
  {
    TotalOrder();
    if Floor(m, d).Some? {
      FloorUnique(m', d, Floor(m, d).value);
    }
  }

  /** A component behind `to` with no bound in between is excluded only through an ANY bound below `to`. */
  lemma AfterStart(m: Bounds, from: Component, to: Component, d: Component)
    requires Less(from, to) && Less(to, d)
    requires var open := m[Start(m, from) := true];
             && Floor(open, d) == Floor(open, to) && Floor(open, to).Some?
             && (Floor(open, to) == Some(Start(m, from)) || !open[Floor(open, to).value])
    ensures Excluded(m, d) ==> SharedAny(m, from, to) && Floor(m, d) == Floor(m, from)
  {
    TotalOrder();
    var s := Start(m, from);
    var open := m[s := true];
    var f := Floor(open, to).value;
    if f != s {
      FloorUnique(m, d, f);
    } else if UnderAny(m, from) {
      FloorUnique(m, d, s);
      FloorUnique(m, to, s);
    } else if Floor(m, d).Some? {
      FloorUnique(m, from, Floor(m, d).value);
    }
  }

  /** The range runs into an ANY range that goes on after `to`. */
  lemma JoinedRange(m: Bounds, from: Component, to: Component, m': Bounds, d: Component)
    requires Less(from, to)
    requires var s := Start(m, from);
             var open := m[s := true];
             var f := Floor(open, to);
             && f.Some? && f.value != s && open[f.value]
             && m' == EraseBetween(open, s, f.value)
    ensures Excluded(m', d) <==> InRange(m, from, to, d)
  {
    TotalOrder();
    var s := Start(m, from);
    var open := m[s := true];
    var f := Floor(open, to).value;
    FloorUnique(m, to, f);
    if Less(d, s) {
      BelowStart(m, from, m', d);
    } else if Less(d, f) {
      FloorUnique(m', d, s);
      if Less(d, from) {
        FloorUnique(m, d, s);
      }
    } else {
      var g := Floor(open, d).value;
      FloorUnique(m, d, g);
      FloorUnique(m', d, if g == f then s else g);
    }
  }

  /** What follows `to` has the same floor, unless it is a bound itself; behind a bound nothing has. */
  lemma FloorBehind(m: Bounds, to: Component, d: Component)
    requires Floor(m, to).Some? && Less(to, d)
    ensures Next(to) in m ==> Floor(m, d) != Floor(m, to)
    ensures Next(to) !in m && d == Next(to) ==> Floor(m, d) == Floor(m, to)
  {
    TotalOrder();
    NextIsLater(to);
    NothingBetween(to, d);
    var f := Floor(m, to).value;
    if Next(to) !in m && d == Next(to) {
      forall j | j in m && Leq(j, d) ensures Leq(j, f) {
        if Less(to, j) {
          NothingBetween(to, j);
        }
      }
      FloorUnique(m, d, f);
    }
  }

  /** The filter becomes the union unless both ends share an ANY bound and what follows `to` is not a bound. */
  lemma RangeIsUnion(m: Bounds, from: Component, to: Component)
    ensures (forall d :: InRange(m, from, to, d) <==> Excluded(m, d) || (Leq(from, d) && Leq(d, to)))
            <==> !(SharedAny(m, from, to) && Next(to) !in m)
  {
    if SharedAny(m, from, to) {
      NextIsLater(to);
      FloorBehind(m, to, Next(to));
      if Next(to) in m {
        forall d | Less(to, d) ensures Floor(m, d) != Floor(m, from) {
          FloorBehind(m, to, d);
        }
      } else {
        assert Excluded(m, Next(to)) && !InRange(m, from, to, Next(to));
      }
    }
  }

  /** With everything excluded, excluding [1, 2] once more lets 3 through. */
  lemma RangeCanShrink()
    ensures var m := map[[] := true]; Excluded(m, [3]) && Less([1], [2]) && !InRange(m, [1], [2], [3])
  {
    var m := map[[] := true];
    FloorUnique(m, [1], []);
    FloorUnique(m, [2], []);
    FloorUnique(m, [3], []);
  }
}
