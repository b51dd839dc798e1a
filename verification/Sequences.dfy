/** Facts about sequences and options that several modules share. */
module Sequences {

  datatype Option<+T> = None | Some(value: T)

  /** No element occurs twice. */
  ghost predicate NoDup<T>(s: seq<T>) {
    forall i, j | 0 <= i < j < |s| :: s[i] != s[j]
  }

  /** All but the last element. */
  function Up<T>(p: seq<T>): seq<T>
    requires p != []
  {
    p[..|p| - 1]
  }

  lemma SplitLast<T>(p: seq<T>)
    requires p != []
    ensures Up(p) + [p[|p| - 1]] == p
  {
  }

  lemma SplitAppend<T>(p: seq<T>, x: T)
    ensures Up(p + [x]) == p && (p + [x])[|p|] == x
  {
  }

  lemma PrefixUp<T>(p: seq<T>, q: seq<T>)
    requires q != []
    ensures p <= q <==> p == q || p <= Up(q)
  {
    var u := Up(q);
    if p <= q && p != q {
      assert |p| <= |u|;
      assert p == q[..|p|] == u[..|p|];
    }
  }

  lemma SliceOfSlice<T>(s: seq<T>, i: nat, j: nat, a: nat, b: nat)
    requires i <= j <= |s| && a <= b <= j - i
    ensures s[i..j][a..b] == s[i + a..i + b]
  {
    var t := s[i..j];
    forall k | 0 <= k < b - a ensures t[a..b][k] == s[i + a..i + b][k] {
      assert t[a..b][k] == t[a + k] == s[i + (a + k)];
    }
  }

  lemma SliceOfPrefix<T>(s: seq<T>, n: nat, a: nat, b: nat)
    requires a <= b <= n <= |s|
    ensures s[..n][a..b] == s[a..b]
  {
  }

  lemma SuffixOfSuffix<T>(s: seq<T>, i: nat, n: nat)
    requires i + n <= |s|
    ensures s[i..][n..] == s[i + n..]
  {
  }

  lemma PrefixParts<T>(s: seq<T>, j: nat, n: nat)
    requires n <= j <= |s|
    ensures s[..j][..n] == s[..n] && s[..j][n..] == s[n..][..j - n]
  {
  }

  lemma ConcatAssociative<T>(a: seq<T>, b: seq<T>, c: seq<T>)
    ensures a + (b + c) == (a + b) + c
  {
  }

  lemma AppendRest<T>(s: seq<T>, x: T)
    requires s != []
    ensures s + [x] == [s[0]] + (s[1..] + [x])
  {
  }

  /** `t` stands in `s` at `i`. */
  ghost predicate At<T>(s: seq<T>, i: nat, t: seq<T>) {
    i + |t| <= |s| && s[i..i + |t|] == t
  }

  lemma AtConcat<T>(s: seq<T>, i: nat, t: seq<T>, u: seq<T>)
    requires At(s, i, t + u)
    ensures At(s, i, t) && At(s, i + |t|, u)
  {
    SliceOfSlice(s, i, i + |t + u|, 0, |t|);
    SliceOfSlice(s, i, i + |t + u|, |t|, |t + u|);
    assert (t + u)[0..|t|] == t && (t + u)[|t|..|t + u|] == u;
  }

  /** `s` without the element `x`. */
  function Without<T(==)>(s: seq<T>, x: T): (r: seq<T>)
    ensures forall y | y in r :: y in s && y != x
    ensures forall y | y in s && y != x :: y in r
    ensures NoDup(s) ==> NoDup(r)
  {
    if s == [] then []
    else if s[0] == x then Without(s[1..], x)
    else
      var t := Without(s[1..], x);
      assert NoDup(s) ==> s[0] !in s[1..] && NoDup(s[1..]);
      [s[0]] + t
  }

  lemma {:induction false} WithoutAbsent<T>(s: seq<T>, x: T)
    requires x !in s
    ensures Without(s, x) == s
  {
    if s == [] {
    } else {
      WithoutAbsent(s[1..], x);
    }
  }

  lemma {:induction false} WithoutLength<T>(s: seq<T>, x: T)
    requires NoDup(s)
    ensures |Without(s, x)| == if x in s then |s| - 1 else |s|
  {
    if x !in s {
      WithoutAbsent(s, x);
    } else if s[0] == x {
      assert x !in s[1..];
      WithoutAbsent(s[1..], x);
    } else {
      WithoutLength(s[1..], x);
    }
  }

  lemma {:induction false} WithoutConcat<T>(s: seq<T>, t: seq<T>, x: T)
    ensures Without(s + t, x) == Without(s, x) + Without(t, x)
  {
    if s == [] {
      assert s + t == t;
    } else {
      assert (s + t)[1..] == s[1..] + t;
      WithoutConcat(s[1..], t, x);
    }
  }

  /** `s` with `x` put in at position `i`. */
  function InsertAt<T>(s: seq<T>, i: nat, x: T): (r: seq<T>)
    requires i <= |s|
    ensures |r| == |s| + 1 && r[i] == x
    ensures x in r && (forall y | y in s :: y in r) && (forall y | y in r :: y == x || y in s)
    ensures NoDup(s) && x !in s ==> NoDup(r)
  {
    var r := s[..i] + [x] + s[i..];
    assert forall j | 0 <= j < |r| :: r[j] == if j < i then s[j] else if j == i then x else s[j - 1];
    assert forall j | 0 <= j < |s| :: s[j] == r[if j < i then j else j + 1];
    r
  }

  /** `a` stands before `b` in `s`. */
  ghost predicate Precedes<T>(s: seq<T>, a: T, b: T) {
    exists i, j :: 0 <= i < j < |s| && s[i] == a && s[j] == b
  }

  /** The elements of `s` that lie in `keep`, in the same order. */
  ghost function Only<T>(s: seq<T>, keep: set<T>): (r: seq<T>)
    ensures forall y | y in r :: y in s && y in keep
    ensures forall y | y in s && y in keep :: y in r
  {
    if s == [] then [] else (if s[0] in keep then [s[0]] else []) + Only(s[1..], keep)
  }

  lemma {:induction false} OnlyAll<T>(s: seq<T>, keep: set<T>)
    requires forall x | x in s :: x in keep
    ensures Only(s, keep) == s
  {
    if s == [] {
    } else {
      OnlyAll(s[1..], keep);
    }
  }

  lemma {:induction false} OnlyWithout<T>(s: seq<T>, keep: set<T>, x: T)
    ensures Without(Only(s, keep), x) == Only(s, keep - {x})
  {
    if s == [] {
    } else {
      var head, rest := if s[0] in keep then [s[0]] else [], Only(s[1..], keep);
      OnlyWithout(s[1..], keep, x);
      WithoutConcat(head, rest, x);
    }
  }
}
