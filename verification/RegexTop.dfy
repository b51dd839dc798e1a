/** Whole expressions: anchors, which captures a match leaves behind, and their expansion into a name. */
module RegexTop {
  import opened Octets
  import opened Sequences
  import opened RegexMatcher
  import opened RegexCompiler
  import opened RegexSyntax

  // Captures are decided by the expression and the name

  lemma {:induction false} LexAntisymmetric(a: seq<nat>, b: seq<nat>)
    requires LexLeq(a, b) && LexLeq(b, a)
    ensures a == b
  {
    if a == [] {
    } else {
      LexAntisymmetric(a[1..], b[1..]);
      assert a == [a[0]] + a[1..] && b == [b[0]] + b[1..];
    }
  }

  lemma {:induction false} LastAccepted(test: Test, inner: Matcher, s: Slice, lens: seq<nat>)
    requires Pieces(test, inner, s, lens) && lens != []
    ensures lens[|lens| - 1] <= |s| && Accepts(test, inner, s[|s| - lens[|lens| - 1]..])
    decreases |lens|
  {
    if |lens| == 1 {
      assert lens[0] == |s| && s[..|s|] == s[0..];
    } else {
      var rest, last := s[lens[0]..], lens[|lens| - 1];
      LastAccepted(test, inner, rest, lens[1..]);
      SuffixOfSuffix(s, lens[0], |rest| - last);
    }
  }

  /**
   * Whatever earlier attempts and earlier matches wrote, a group under no zero-minimum repetition
   * holds after a match the one slice that the expression and the name determine.
   */
  lemma {:induction false} CapturesAreDetermined(test: Test, m: Matcher, base: nat, s: Slice,
                                                 a: seq<Slice>, b: seq<Slice>, k: nat)
    requires Accepts(test, m, s) && Captured(test, m, base, s, a) && Captured(test, m, base, s, b)
    requires k in Certain(m, base) && k < |a| && k < |b|
    ensures a[k] == b[k]
    decreases m, 0
  {
    match m
    case Set(_, _) =>
    case Group(inner, _) =>
      if k != base {
        CapturesAreDetermined(test, inner, base + 1, s, a, b, k);
      }
    case List(items) =>
      var x :| GreatestSplit(test, items, s, x) && CapturedAll(test, items, base, s, x, a);
      var y :| GreatestSplit(test, items, s, y) && CapturedAll(test, items, base, s, y, b);
      LexAntisymmetric(x, y);
      ListCapturesAreDetermined(test, items, base, s, x, a, b, k);
    case Repeat(inner, _, _) =>
      var x :| GreatestRun(test, m, 0, s, x) && CapturedLast(test, inner, base, s, x, a);
      var y :| GreatestRun(test, m, 0, s, y) && CapturedLast(test, inner, base, s, y, b);
      LexAntisymmetric(x, y);
      LastAccepted(test, inner, s, x);
      CapturesAreDetermined(test, inner, base, s[|s| - x[|x| - 1]..], a, b, k);
  }

  lemma {:induction false} ListCapturesAreDetermined(test: Test, items: seq<Matcher>, base: nat, s: Slice,
                                                     lens: seq<nat>, a: seq<Slice>, b: seq<Slice>, k: nat)
    requires Splits(test, items, s, lens)
    requires CapturedAll(test, items, base, s, lens, a) && CapturedAll(test, items, base, s, lens, b)
    requires k in CertainOf(items, base) && k < |a| && k < |b|
    ensures a[k] == b[k]
    decreases items, 0
  {
    if k in Certain(items[0], base) {
      CapturesAreDetermined(test, items[0], base, s[..lens[0]], a, b, k);
    } else {
      ListCapturesAreDetermined(test, items[1..], base + Groups(items[0]), s[lens[0]..], lens[1..], a, b, k);
    }
  }

  lemma {:induction false} CertainInside(m: Matcher, base: nat, k: nat)
    requires k in Certain(m, base)
    ensures base <= k < base + Groups(m)
    decreases m
  {
    match m
    case Set(_, _) =>
    case Repeat(inner, _, _) => CertainInside(inner, base, k);
    case List(items) => CertainOfInside(items, base, k);
    case Group(inner, _) =>
      if k == base {
      } else {
        CertainInside(inner, base + 1, k);
      }
  }

  lemma {:induction false} CertainOfInside(items: seq<Matcher>, base: nat, k: nat)
    requires k in CertainOf(items, base)
    ensures base <= k < base + GroupsOf(items)
    decreases items
  {
    if k in Certain(items[0], base) {
      CertainInside(items[0], base, k);
    } else {
      CertainOfInside(items[1..], base + Groups(items[0]), k);
    }
  }

  /** `t` is a stretch of `s`. */
  ghost predicate SliceOf(t: Slice, s: Slice) {
    exists i, j | 0 <= i <= j <= |s| :: t == s[i..j]
  }

  lemma SliceOfWhole(s: Slice)
    ensures SliceOf(s, s)
  {
    assert s == s[0..|s|];
  }

  lemma SliceOfPart(t: Slice, s: Slice, a: nat, b: nat)
    requires a <= b <= |s| && SliceOf(t, s[a..b])
    ensures SliceOf(t, s)
  {
    var i, j :| 0 <= i <= j <= |s[a..b]| && t == s[a..b][i..j];
    SliceOfSlice(s, a, b, i, j);
    assert t == s[a + i..a + j];
  }

  lemma SliceOfTail(t: Slice, s: Slice, a: nat)
    requires a <= |s| && SliceOf(t, s[a..])
    ensures SliceOf(t, s)
  {
    assert s[a..] == s[a..|s|];
    SliceOfPart(t, s, a, |s|);
  }

  /** The capture with number `k` belongs to the k-th group: it is a slice of the name that this group accepts. */
  lemma {:induction false} CaptureBelongs(test: Test, m: Matcher, base: nat, s: Slice, cap: seq<Slice>, k: nat)
    requires Accepts(test, m, s) && Captured(test, m, base, s, cap)
    requires k in Certain(m, base) && k < |cap|
    ensures base <= k < base + Groups(m) && Accepts(test, GroupAt(m, k - base), cap[k]) && SliceOf(cap[k], s)
    decreases m, 0
  {
    CertainInside(m, base, k);
    match m
    case Set(_, _) =>
    case Group(inner, _) =>
      if k == base {
        SliceOfWhole(s);
      } else {
        CaptureBelongs(test, inner, base + 1, s, cap, k);
      }
    case List(items) =>
      var x :| GreatestSplit(test, items, s, x) && CapturedAll(test, items, base, s, x, cap);
      ListCaptureBelongs(test, items, base, s, x, cap, k);
    case Repeat(inner, _, _) =>
      var x :| GreatestRun(test, m, 0, s, x) && CapturedLast(test, inner, base, s, x, cap);
      LastAccepted(test, inner, s, x);
      CaptureBelongs(test, inner, base, s[|s| - x[|x| - 1]..], cap, k);
      SliceOfTail(cap[k], s, |s| - x[|x| - 1]);
  }

  lemma {:induction false} ListCaptureBelongs(test: Test, items: seq<Matcher>, base: nat, s: Slice, lens: seq<nat>,
                                              cap: seq<Slice>, k: nat)
    requires Splits(test, items, s, lens) && CapturedAll(test, items, base, s, lens, cap)
    requires k in CertainOf(items, base) && k < |cap|
    ensures base <= k < base + GroupsOf(items) && Accepts(test, GroupAtOf(items, k - base), cap[k])
    ensures SliceOf(cap[k], s)
    decreases items, 0
  {
    var n := Groups(items[0]);
    if k in Certain(items[0], base) {
      CaptureBelongs(test, items[0], base, s[..lens[0]], cap, k);
      assert s[..lens[0]] == s[0..lens[0]];
      SliceOfPart(cap[k], s, 0, lens[0]);
    } else {
      ListCaptureBelongs(test, items[1..], base + n, s[lens[0]..], lens[1..], cap, k);
      SliceOfTail(cap[k], s, lens[0]);
    }
  }

  // Anchors

  const WILDCARD := "<.*>*"

  const ANY := Repeat(Set(true, [".*"]), 0, INT_MAX)

  /** Without an end anchor, anything may follow. */
  function WithEnd(expr: string): string
    requires expr != ""
  {
    if expr[|expr| - 1] != '$' then expr + WILDCARD else Up(expr)
  }

  /** The list compiled for the start of the name and, without a start anchor, the one with a wildcard in front. */
  function StartLists(e: string): Option<(seq<Matcher>, Option<seq<Matcher>>)> {
    if e != "" && e[0] == '^' then
      var primary := Patterns(e[1..]);
      if primary.None? then None else Some((primary.value, None))
    else
      var secondary, primary := Patterns(WILDCARD + e), Patterns(e);
      if secondary.None? || primary.None? then None else Some((primary.value, secondary))
  }

  /** None stands for an exception. */
  function TopLists(expr: string): Option<(seq<Matcher>, Option<seq<Matcher>>)>
    requires expr != ""
  {
    StartLists(WithEnd(expr))
  }

  /** The text of a whole expression. */
  function TopText(items: seq<Item>, fromStart: bool, toEnd: bool): string {
    (if fromStart then "^" else "") + Text(items) + (if toEnd then "$" else "")
  }

  const WILD := Item(Single(".*"), Star)

  lemma WildText()
    ensures Text([WILD]) == WILDCARD && Good([WILD]) && Meaning([WILD]) == [ANY]
  {
    assert [WILD][1..] == [];
    ScanPlain(".*", '<', '>', 1);
    assert Text([WILD]) == ItemText(WILD) + Text([]) && Text([]) == "" && ItemText(WILD) == WILDCARD;
    assert Good([]) && GoodItem(WILD);
    assert Meaning([]) == [] && ItemMatcher(WILD) == ANY;
  }

  lemma {:induction false} GoodConcat(a: seq<Item>, b: seq<Item>)
    requires Good(a) && Good(b)
    ensures Good(a + b)
  {
    if a == [] {
      assert a + b == b;
    } else {
      assert (a + b)[1..] == a[1..] + b;
      GoodConcat(a[1..], b);
    }
  }

  lemma {:induction false} TextConcat(a: seq<Item>, b: seq<Item>)
    ensures Text(a + b) == Text(a) + Text(b)
  {
    if a == [] {
      assert a + b == b;
    } else {
      assert (a + b)[1..] == a[1..] + b;
      TextConcat(a[1..], b);
    }
  }

  lemma {:induction false} MeaningConcat(a: seq<Item>, b: seq<Item>)
    requires Good(a) && Good(b) && Good(a + b)
    ensures Meaning(a + b) == Meaning(a) + Meaning(b)
  {
    if a == [] {
      assert a + b == b;
    } else {
      assert (a + b)[1..] == a[1..] + b;
      MeaningConcat(a[1..], b);
    }
  }

  lemma WrittenConcat(a: seq<Item>, b: seq<Item>)
    requires Good(a) && Good(b)
    ensures Good(a + b) && Text(a + b) == Text(a) + Text(b) && Meaning(a + b) == Meaning(a) + Meaning(b)
  {
    GoodConcat(a, b);
    TextConcat(a, b);
    MeaningConcat(a, b);
  }

  lemma {:induction false} TextEnds(items: seq<Item>)
    ensures Text(items) != "" ==> Text(items)[|Text(items)| - 1] in ">])?+*}"
  {
    if items == [] {
    } else {
      TextEnds(items[1..]);
      var a, r := AtomText(items[0].atom), RepText(items[0].rep);
      assert a[|a| - 1] in ">])";
      assert r != "" ==> r[|r| - 1] in "?+*}";
    }
  }

  lemma StartCompiles(items: seq<Item>, fromStart: bool)
    requires Good(items)
    ensures StartLists((if fromStart then "^" else "") + Text(items)) ==
            Some((Meaning(items), if fromStart then None else Some([ANY] + Meaning(items))))
  {
    CompileGivesBack(items);
    TextStarts(items);
    if fromStart {
      assert ("^" + Text(items))[1..] == Text(items);
    } else {
      assert "" + Text(items) == Text(items);
      WildText();
      WrittenConcat([WILD], items);
      CompileGivesBack([WILD] + items);
    }
  }

  lemma EndOf(front: string, t: string, toEnd: bool)
    requires front in {"", "^"} && (t != "" ==> t[|t| - 1] != '$')
    requires front + t + (if toEnd then "$" else "") != ""
    ensures WithEnd(front + t + (if toEnd then "$" else "")) == front + (t + (if toEnd then "" else WILDCARD))
  {
  }

  lemma EndCompiles(items: seq<Item>, fromStart: bool, toEnd: bool)
    requires Good(items) && TopText(items, fromStart, toEnd) != ""
    ensures WithEnd(TopText(items, fromStart, toEnd)) ==
            (if fromStart then "^" else "") + (Text(items) + (if toEnd then "" else WILDCARD))
  {
    TextEnds(items);
    EndOf(if fromStart then "^" else "", Text(items), toEnd);
  }

  /** The two lists that the written expression is compiled into. */
  lemma TopCompiles(items: seq<Item>, fromStart: bool, toEnd: bool)
    requires Good(items) && TopText(items, fromStart, toEnd) != ""
    ensures var primary := Meaning(items) + (if toEnd then [] else [ANY]);
            TopLists(TopText(items, fromStart, toEnd)) ==
            Some((primary, if fromStart then None else Some([ANY] + primary)))
  {
    EndCompiles(items, fromStart, toEnd);
    if toEnd {
      assert Text(items) + "" == Text(items) && Meaning(items) + [] == Meaning(items);
      StartCompiles(items, fromStart);
    } else {
      WildText();
      WrittenConcat(items, [WILD]);
      StartCompiles(items + [WILD], fromStart);
    }
  }

  ghost predicate AcceptsEverything(test: Test) {
    forall c :: test(".*", c)
  }

  lemma {:induction false} AnyPieces(test: Test, s: Slice) returns (lens: seq<nat>)
    requires AcceptsEverything(test)
    ensures |lens| == |s| && Pieces(test, ANY.inner, s, lens)
  {
    lens := [];
    if s != [] {
      var rest := AnyPieces(test, s[1..]);
      lens := [1] + rest;
      assert lens[1..] == rest && ".*" in [".*"] && Fits(test, ".*", s[..1][0]);
    }
  }

  lemma AnyAccepts(test: Test, s: Slice)
    requires AcceptsEverything(test) && |s| <= INT_MAX
    ensures Accepts(test, ANY, s)
  {
    var lens := AnyPieces(test, s);
    assert ANY.min <= |lens| <= ANY.max;
  }

  lemma SomeSplit(test: Test, items: seq<Matcher>, s: Slice) returns (lens: seq<nat>)
    requires Splittable(test, items, s)
    ensures Splits(test, items, s, lens)
  {
    lens :| Splits(test, items, s, lens);
  }

  /** A wildcard behind a list lets it end anywhere. */
  lemma {:induction false} AnyBehind(test: Test, items: seq<Matcher>, s: Slice)
    requires AcceptsEverything(test) && |s| <= INT_MAX
    ensures Splittable(test, items + [ANY], s) <==> exists j | 0 <= j <= |s| :: Splittable(test, items, s[..j])
  {
    forall lens | Splits(test, items + [ANY], s, lens)
      ensures exists j | 0 <= j <= |s| :: Splittable(test, items, s[..j])
    {
      var j := DropAny(test, items, s, lens);
    }
    forall j | 0 <= j <= |s| && Splittable(test, items, s[..j]) ensures Splittable(test, items + [ANY], s) {
      var lens := SomeSplit(test, items, s[..j]);
      AddAny(test, items, s, j, lens);
    }
  }

  lemma {:induction false} DropAny(test: Test, items: seq<Matcher>, s: Slice, lens: seq<nat>) returns (j: nat)
    requires Splits(test, items + [ANY], s, lens)
    ensures j <= |s| && Splittable(test, items, s[..j])
    decreases |items|
  {
    if items == [] {
      j := 0;
      assert Splits(test, items, s[..0], []);
    } else {
      assert (items + [ANY])[1..] == items[1..] + [ANY];
      var i := DropAny(test, items[1..], s[lens[0]..], lens[1..]);
      var rest :| Splits(test, items[1..], s[lens[0]..][..i], rest);
      j := lens[0] + i;
      var all := [lens[0]] + rest;
      assert all[1..] == rest && s[..j][..lens[0]] == s[..lens[0]] && s[..j][lens[0]..] == s[lens[0]..][..i];
      assert Splits(test, items, s[..j], all);
    }
  }

  lemma SplitsCons(test: Test, item: Matcher, items: seq<Matcher>, s: Slice, n: nat, lens: seq<nat>)
    requires n <= |s| && Accepts(test, item, s[..n]) && Splits(test, items, s[n..], lens)
    ensures Splits(test, [item] + items, s, [n] + lens)
  {
    assert ([item] + items)[1..] == items && ([n] + lens)[1..] == lens;
  }

  lemma OnlyAny(test: Test, s: Slice)
    requires AcceptsEverything(test) && |s| <= INT_MAX
    ensures Splits(test, [ANY], s, [|s|])
  {
    AnyAccepts(test, s);
    assert s[..|s|] == s && s[|s|..] == [];
    SplitsCons(test, ANY, [], s, |s|, []);
    assert [ANY] + [] == [ANY] && [|s|] + [] == [|s|];
  }

  lemma {:induction false} AddAny(test: Test, items: seq<Matcher>, s: Slice, j: nat, lens: seq<nat>)
    requires AcceptsEverything(test) && |s| <= INT_MAX && j <= |s| && Splits(test, items, s[..j], lens)
    ensures Splits(test, items + [ANY], s, lens + [|s| - j])
    decreases |items|
  {
    var last := |s| - j;
    if items == [] {
      OnlyAny(test, s);
      assert items + [ANY] == [ANY] && lens + [last] == [last];
    } else {
      var n := lens[0];
      PrefixParts(s, j, n);
      AddAny(test, items[1..], s[n..], j - n, lens[1..]);
      SplitsCons(test, items[0], items[1..] + [ANY], s, n, lens[1..] + [last]);
      AppendRest(items, ANY);
      AppendRest(lens, last);
    }
  }

  /** A wildcard in front of a list lets it start anywhere. */
  lemma AnyBefore(test: Test, items: seq<Matcher>, s: Slice)
    requires AcceptsEverything(test) && |s| <= INT_MAX
    ensures Splittable(test, [ANY] + items, s) <==> exists i | 0 <= i <= |s| :: Splittable(test, items, s[i..])
  {
    if Splittable(test, [ANY] + items, s) {
      SplittableStep(test, [ANY] + items, s);
      assert ([ANY] + items)[1..] == items;
    }
    if i :| 0 <= i <= |s| && Splittable(test, items, s[i..]) {
      var rest := SomeSplit(test, items, s[i..]);
      AnyAccepts(test, s[..i]);
      SplitsCons(test, ANY, items, s, i, rest);
    }
  }

  /** The patterns take the slice of `name` from `i` to `j`, which an anchor holds to its end of the name. */
  ghost predicate FoundAt(test: Test, list: seq<Matcher>, fromStart: bool, toEnd: bool, name: Slice, i: nat, j: nat) {
    && i <= j <= |name| && (fromStart ==> i == 0) && (toEnd ==> j == |name|)
    && Splittable(test, list, name[i..j])
  }

  ghost predicate Found(test: Test, list: seq<Matcher>, fromStart: bool, toEnd: bool, name: Slice) {
    exists i, j :: FoundAt(test, list, fromStart, toEnd, name, i, j)
  }

  lemma FoundFrom(test: Test, list: seq<Matcher>, toEnd: bool, name: Slice, i: nat)
    requires AcceptsEverything(test) && |name| <= INT_MAX && i <= |name|
    ensures Splittable(test, list + (if toEnd then [] else [ANY]), name[i..])
            <==> exists j :: FoundAt(test, list, false, toEnd, name, i, j)
  {
    var s := name[i..];
    assert list + [] == list;
    if toEnd {
      assert name[i..|name|] == s;
      assert FoundAt(test, list, false, toEnd, name, i, |name|) <==> Splittable(test, list, s);
    } else {
      AnyBehind(test, list, s);
      forall j | 0 <= j <= |s| ensures s[..j] == name[i..i + j] {
      }
      forall j | 0 <= j <= |s| && Splittable(test, list, s[..j])
        ensures FoundAt(test, list, false, toEnd, name, i, i + j)
      {
      }
      forall j: nat | FoundAt(test, list, false, toEnd, name, i, j) ensures Splittable(test, list, s[..j - i]) {
        assert s[..j - i] == name[i..j];
      }
    }
  }

  /** An expression matches a name exactly when its patterns take a slice of the name that the anchors allow. */
  lemma AnchorsMean(test: Test, list: seq<Matcher>, fromStart: bool, toEnd: bool, name: Slice)
    requires AcceptsEverything(test) && |name| <= INT_MAX
    ensures var primary := list + (if toEnd then [] else [ANY]);
            (Accepts(test, List(primary), name) || (!fromStart && Accepts(test, List([ANY] + primary), name)))
            <==> Found(test, list, fromStart, toEnd, name)
  {
    var primary := list + (if toEnd then [] else [ANY]);
    assert name[0..] == name;
    FoundFrom(test, list, toEnd, name, 0);
    if fromStart {
      assert forall j ::
          FoundAt(test, list, true, toEnd, name, 0, j) <==> FoundAt(test, list, false, toEnd, name, 0, j);
    } else {
      AnyBefore(test, primary, name);
      if Splittable(test, [ANY] + primary, name) {
        var i :| 0 <= i <= |name| && Splittable(test, primary, name[i..]);
        FoundFrom(test, list, toEnd, name, i);
      }
      if i: nat, j: nat :| FoundAt(test, list, false, toEnd, name, i, j) {
        FoundFrom(test, list, toEnd, name, i);
        assert Splittable(test, primary, name[i..]);
      }
    }
  }
}
