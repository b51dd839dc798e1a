/** Laws of matching that say in plain terms which slices are taken and how they are cut. */
module RegexLaws {
  import opened Octets
  import opened Sequences
  import opened RegexMatcher
  import opened RegexCompiler
  import opened RegexSyntax
  import opened RegexTop

  // What is taken

  /** Some body is empty or fits the component. */
  ghost predicate AnyFits(test: Test, bodies: seq<string>, c: Component) {
    exists b | b in bodies :: b == "" || test(b, c)
  }

  lemma {:induction false} PiecesOfOne(test: Test, bodies: seq<string>, s: Slice, lens: seq<nat>)
    requires Pieces(test, Set(true, bodies), s, lens)
    ensures |lens| == |s| && forall i | 0 <= i < |s| :: AnyFits(test, bodies, s[i])
    decreases |lens|
  {
    if lens == [] {
    } else {
      SetTakes(test, bodies, s[..lens[0]]);
      assert lens[0] == 1 && s[..1][0] == s[0];
      PiecesOfOne(test, bodies, s[1..], lens[1..]);
      forall i | 0 <= i < |s| ensures AnyFits(test, bodies, s[i]) {
        assert i > 0 ==> s[i] == s[1..][i - 1];
      }
    }
  }

  lemma {:induction false} OnePieceEach(test: Test, bodies: seq<string>, s: Slice) returns (lens: seq<nat>)
    requires forall i | 0 <= i < |s| :: AnyFits(test, bodies, s[i])
    ensures |lens| == |s| && Pieces(test, Set(true, bodies), s, lens)
  {
    if s == [] {
      lens := [];
    } else {
      forall i | 0 <= i < |s[1..]| ensures AnyFits(test, bodies, s[1..][i]) {
        assert s[1..][i] == s[i + 1];
      }
      var rest := OnePieceEach(test, bodies, s[1..]);
      lens := [1] + rest;
      assert s[..1][0] == s[0] && lens[1..] == rest;
      SetTakes(test, bodies, s[..1]);
    }
  }

  /** A repeated set takes exactly the slices within the bounds whose every component some body fits. */
  lemma RepeatedSetTakes(test: Test, bodies: seq<string>, min: nat, max: nat, s: Slice)
    requires min <= max
    ensures Accepts(test, Repeat(Set(true, bodies), min, max), s)
            <==> min <= |s| <= max && forall i | 0 <= i < |s| :: AnyFits(test, bodies, s[i])
  {
    var m := Set(true, bodies);
    RepeatIsRepetition(test, m, min, max);
    assert Accepts(test, Repeat(m, min, max), s) <==> Repeated(test, m, min, max, s);
    if lens :| min <= |lens| <= max && Pieces(test, m, s, lens) {
      PiecesOfOne(test, bodies, s, lens);
    }
    if min <= |s| <= max && forall i | 0 <= i < |s| :: AnyFits(test, bodies, s[i]) {
      var lens := OnePieceEach(test, bodies, s);
    }
  }

  /** A component body with its bounds in decimal, between anchors. */
  function CountedText(body: string, lo: nat, hi: nat): string {
    "^" + ("<" + body + ">" + ("{" + (Printed(lo) + "," + Printed(hi)) + "}")) + "$"
  }

  lemma CountedCompiles(body: string, lo: nat, hi: nat)
    requires GoodBody(body) && lo <= hi <= 2147483647
    ensures TopLists(CountedText(body, lo, hi)) == Some(([Repeat(Set(true, [body]), lo, hi)], None))
  {
    PrintedIsRead(lo);
    PrintedIsRead(hi);
    var item := Item(Single(body), Between(Printed(lo), Printed(hi)));
    OneItem(item);
    assert TopText([item], true, true) == CountedText(body, lo, hi);
    TopCompiles([item], true, true);
    assert Meaning([item]) + [] == Meaning([item]) == [ItemMatcher(item)];
  }

  /** <b>{lo,hi} between anchors takes exactly the names of lo to hi components that b fits. */
  lemma CountedExpression(test: Test, body: string, lo: nat, hi: nat, name: Slice)
    requires GoodBody(body) && lo <= hi <= 2147483647
    ensures var t := TopLists(CountedText(body, lo, hi));
            && t.Some? && t.value.1.None?
            && (Accepts(test, List(t.value.0), name)
                <==> lo <= |name| <= hi && forall i | 0 <= i < |name| :: body == "" || test(body, name[i]))
  {
    CountedCompiles(body, lo, hi);
    OneMatcher(test, Repeat(Set(true, [body]), lo, hi), name);
    RepeatedSetTakes(test, [body], lo, hi, name);
    forall i | 0 <= i < |name| ensures AnyFits(test, [body], name[i]) <==> body == "" || test(body, name[i]) {
      assert body in [body];
    }
  }

  lemma OneMatcher(test: Test, m: Matcher, s: Slice)
    ensures Accepts(test, List([m]), s) <==> Accepts(test, m, s)
  {
    assert [m][1..] == [] && s[..|s|] == s && s[|s|..] == [];
    if Accepts(test, m, s) {
      assert Splits(test, [], [], []) && [|s|][1..] == [];
      assert Splits(test, [m], s, [|s|]);
    }
    if Splittable(test, [m], s) {
      var lens := SomeSplit(test, [m], s);
      assert Splits(test, [], s[lens[0]..], lens[1..]);
    }
  }

  lemma OneRepetition(test: Test, m: Matcher, s: Slice)
    ensures Repeated(test, m, 1, 1, s) <==> Accepts(test, m, s)
  {
    assert s[..|s|] == s && s[|s|..] == [];
    if Accepts(test, m, s) {
      assert [|s|][1..] == [] && Pieces(test, m, [], []);
      assert Pieces(test, m, s, [|s|]);
    }
    if lens :| |lens| == 1 && Pieces(test, m, s, lens) {
      assert Pieces(test, m, s[lens[0]..], lens[1..]) && lens[1..] == [];
      assert lens[0] == |s|;
    }
  }

  /** The text of a set between anchors. */
  function AnchoredText(negated: bool, bodies: seq<string>): string {
    "^[" + ((if negated then "^" else "") + BodiesText(bodies)) + "]$"
  }

  lemma AnchoredTextIs(negated: bool, bodies: seq<string>)
    ensures TopText([Item(Bracket(negated, bodies), Once)], true, true) == AnchoredText(negated, bodies)
  {
    var item := Item(Bracket(negated, bodies), Once);
    var inside := (if negated then "^" else "") + BodiesText(bodies);
    assert [item][1..] == [] && Text([item]) == ItemText(item) + Text([]) == ItemText(item);
    assert ItemText(item) == "[" + inside + "]" + "" == "[" + inside + "]";
    assert "^" + ("[" + inside + "]") + "$" == "^[" + inside + "]$";
  }

  lemma AnchoredCompiles(negated: bool, bodies: seq<string>)
    requires GoodAtom(Bracket(negated, bodies))
    ensures TopLists(AnchoredText(negated, bodies)) == Some(([Repeat(Set(!negated, bodies), 1, 1)], None))
  {
    var item := Item(Bracket(negated, bodies), Once);
    OneItem(item);
    AnchoredTextIs(negated, bodies);
    TopCompiles([item], true, true);
    assert Meaning([item]) + [] == Meaning([item]) == [ItemMatcher(item)];
  }

  /** ^[<b>...]$ takes exactly the one-component names that some body fits, and ^[^<b>...]$ exactly the other ones. */
  lemma AnchoredSet(test: Test, negated: bool, bodies: seq<string>, name: Slice)
    requires GoodAtom(Bracket(negated, bodies))
    ensures var t := TopLists(AnchoredText(negated, bodies));
            && t.Some? && t.value.1.None?
            && (Accepts(test, List(t.value.0), name)
                <==> |name| == 1 && (negated <==> !exists b | b in bodies :: b == "" || test(b, name[0])))
  {
    AnchoredCompiles(negated, bodies);
    var m := Set(!negated, bodies);
    OneMatcher(test, Repeat(m, 1, 1), name);
    RepeatIsRepetition(test, m, 1, 1);
    OneRepetition(test, m, name);
    SetTakes(test, bodies, name);
  }

  /** The list of the sets of one body each. */
  function Singles(bodies: seq<string>): seq<Matcher> {
    if bodies == [] then [] else [Repeat(Set(true, [bodies[0]]), 1, 1)] + Singles(bodies[1..])
  }

  lemma SinglesCut(test: Test, bodies: seq<string>, s: Slice)
    requires bodies != []
    ensures Splittable(test, Singles(bodies), s)
            <==> s != [] && (bodies[0] == "" || test(bodies[0], s[0])) && Splittable(test, Singles(bodies[1..]), s[1..])
  {
    var one, rest := Repeat(Set(true, [bodies[0]]), 1, 1), Singles(bodies[1..]);
    assert Singles(bodies) == [one] + rest && ([one] + rest)[1..] == rest;
    forall t | Accepts(test, one, t) ensures |t| == 1 && (bodies[0] == "" || test(bodies[0], t[0])) {
      RepeatedSetTakes(test, [bodies[0]], 1, 1, t);
      assert AnyFits(test, [bodies[0]], t[0]);
    }
    if Splittable(test, Singles(bodies), s) {
      SplittableStep(test, [one] + rest, s);
    }
    if s != [] && (bodies[0] == "" || test(bodies[0], s[0])) && Splittable(test, rest, s[1..]) {
      assert AnyFits(test, [bodies[0]], s[..1][0]);
      RepeatedSetTakes(test, [bodies[0]], 1, 1, s[..1]);
      var lens := SomeSplit(test, rest, s[1..]);
      SplitsCons(test, one, rest, s, 1, lens);
    }
  }

  /** The components fit the bodies one by one. */
  ghost predicate FitOneByOne(test: Test, bodies: seq<string>, s: Slice) {
    |s| == |bodies| && forall i | 0 <= i < |s| :: bodies[i] == "" || test(bodies[i], s[i])
  }

  lemma FitStep(test: Test, bodies: seq<string>, s: Slice)
    requires bodies != []
    ensures FitOneByOne(test, bodies, s)
            <==> s != [] && (bodies[0] == "" || test(bodies[0], s[0])) && FitOneByOne(test, bodies[1..], s[1..])
  {
    if s != [] && (bodies[0] == "" || test(bodies[0], s[0])) && FitOneByOne(test, bodies[1..], s[1..]) {
      forall i | 0 <= i < |s| ensures bodies[i] == "" || test(bodies[i], s[i]) {
        assert i > 0 ==> bodies[i] == bodies[1..][i - 1] && s[i] == s[1..][i - 1];
      }
    }
  }

  /** A list of single components takes exactly the slices of as many components that fit one by one. */
  lemma {:induction false} SinglesTake(test: Test, bodies: seq<string>, s: Slice)
    ensures Accepts(test, List(Singles(bodies)), s) <==> FitOneByOne(test, bodies, s)
    decreases |bodies|
  {
    if bodies == [] {
      assert s == [] ==> Splits(test, [], s, []);
      if Splittable(test, [], s) {
        var lens := SomeSplit(test, [], s);
      }
    } else {
      SinglesCut(test, bodies, s);
      FitStep(test, bodies, s);
      if s != [] {
        SinglesTake(test, bodies[1..], s[1..]);
      }
    }
  }

  // How it is cut

  lemma LongerIsGreater(t: nat, rest: seq<nat>, lens: seq<nat>)
    requires lens != [] && lens[0] < t
    ensures !LexLeq([t] + rest, lens)
  {
  }

  /** In the preferred split no longer first piece leaves the rest a way, and the rest is cut in the preferred way. */
  lemma GreatestMeans(test: Test, items: seq<Matcher>, s: Slice, lens: seq<nat>)
    requires items != [] && GreatestSplit(test, items, s, lens)
    ensures lens != [] && lens[0] <= |s|
    ensures forall t | lens[0] < t <= |s| :: !(Accepts(test, items[0], s[..t]) && Splittable(test, items[1..], s[t..]))
    ensures GreatestSplit(test, items[1..], s[lens[0]..], lens[1..])
  {
    assert [items[0]] + items[1..] == items;
    forall t | lens[0] < t <= |s|
      ensures !(Accepts(test, items[0], s[..t]) && Splittable(test, items[1..], s[t..]))
    {
      if Accepts(test, items[0], s[..t]) && Splittable(test, items[1..], s[t..]) {
        var rest := SomeSplit(test, items[1..], s[t..]);
        LongerIsGreater(t, rest, lens);
        SplitsCons(test, items[0], items[1..], s, t, rest);
      }
    }
    forall other | Splits(test, items[1..], s[lens[0]..], other) ensures LexLeq(other, lens[1..]) {
      SplitsCons(test, items[0], items[1..], s, lens[0], other);
      assert [items[0]] + items[1..] == items && LexLeq([lens[0]] + other, lens) && ([lens[0]] + other)[1..] == other;
    }
  }

  /** In the preferred run no longer first piece lets the repetition finish, and it goes on in the preferred way. */
  lemma GreatestRunMeans(test: Test, m: Matcher, r: nat, s: Slice, lens: seq<nat>)
    requires m.Repeat? && s != [] && GreatestRun(test, m, r, s, lens)
    ensures lens != [] && lens[0] <= |s|
    ensures forall t | lens[0] < t <= |s| :: !(Accepts(test, m.inner, s[..t]) && Finishes(test, m, r + 1, s[t..]))
    ensures GreatestRun(test, m, r + 1, s[lens[0]..], lens[1..])
  {
    RunTail(test, m, r, s, lens);
    forall t | lens[0] < t <= |s|
      ensures !(Accepts(test, m.inner, s[..t]) && Finishes(test, m, r + 1, s[t..]))
    {
      if Accepts(test, m.inner, s[..t]) && Finishes(test, m, r + 1, s[t..]) {
        var rest :| Runs(test, m, r + 1, s[t..], rest);
        LongerIsGreater(t, rest, lens);
        RunCons(test, m, r, s, t, rest);
      }
    }
    forall other | Runs(test, m, r + 1, s[lens[0]..], other) ensures LexLeq(other, lens[1..]) {
      RunCons(test, m, r, s, lens[0], other);
      assert LexLeq([lens[0]] + other, lens) && ([lens[0]] + other)[1..] == other;
    }
  }

  lemma RunCons(test: Test, m: Matcher, r: nat, s: Slice, t: nat, rest: seq<nat>)
    requires m.Repeat? && s != [] && t <= |s| && Accepts(test, m.inner, s[..t]) && Runs(test, m, r + 1, s[t..], rest)
    ensures Runs(test, m, r, s, [t] + rest)
  {
    assert ([t] + rest)[1..] == rest;
    if rest == [] {
      assert s[t..] == [];
    } else {
      assert ([t] + rest)[|rest|] == rest[|rest| - 1];
    }
  }

  // Which groups are certain

  /** No repetition in the matcher has minimum 0. */
  predicate NoneOptional(m: Matcher) {
    match m
    case Set(_, _) => true
    case Repeat(inner, min, _) => min > 0 && NoneOptional(inner)
    case List(items) => NoneOptionalOf(items)
    case Group(inner, _) => NoneOptional(inner)
  }

  predicate NoneOptionalOf(items: seq<Matcher>) {
    items == [] || (NoneOptional(items[0]) && NoneOptionalOf(items[1..]))
  }

  /** Without optional repetitions every group is certain. */
  lemma {:induction false} AllCertain(m: Matcher, base: nat, k: nat)
    requires NoneOptional(m) && base <= k < base + Groups(m)
    ensures k in Certain(m, base)
    decreases m
  {
    match m
    case Set(_, _) =>
    case Repeat(inner, _, _) => AllCertain(inner, base, k);
    case List(items) => AllCertainOf(items, base, k);
    case Group(inner, _) =>
      if k == base {
      } else {
        AllCertain(inner, base + 1, k);
      }
  }

  lemma {:induction false} AllCertainOf(items: seq<Matcher>, base: nat, k: nat)
    requires NoneOptionalOf(items) && base <= k < base + GroupsOf(items)
    ensures k in CertainOf(items, base)
    decreases items
  {
    if k < base + Groups(items[0]) {
      AllCertain(items[0], base, k);
    } else {
      AllCertainOf(items[1..], base + Groups(items[0]), k);
    }
  }

  // Texts

  /** A body with each mark behind it. */
  lemma MarkedBodies(b: string)
    requires GoodBody(b)
    ensures Patterns("<" + b + ">") == Some([Repeat(Set(true, [b]), 1, 1)])
    ensures Patterns("<" + b + ">" + "?") == Some([Repeat(Set(true, [b]), 0, 1)])
    ensures Patterns("<" + b + ">" + "+") == Some([Repeat(Set(true, [b]), 1, 2147483647)])
    ensures Patterns("<" + b + ">" + "*") == Some([Repeat(Set(true, [b]), 0, 2147483647)])
  {
    OneItem(Item(Single(b), Once));
    assert "<" + b + ">" + "" == "<" + b + ">";
    OneItem(Item(Single(b), Optional));
    OneItem(Item(Single(b), Plus));
    OneItem(Item(Single(b), Star));
  }

  /** Parentheses make a group of what they hold. */
  lemma ParenthesesGroup(items: seq<Item>)
    requires Good(items) && Balanced(Text(items), '(', ')')
    ensures Patterns("(" + Text(items) + ")") == Some([Group(List(Meaning(items)), "(" + Text(items) + ")")])
  {
    var item := Item(Paren(items), Once);
    OneItem(item);
    assert AtomText(item.atom) + "" == AtomText(item.atom);
  }

  /** A NUL in a component, an unclosed one, a stray character and a bare mark are refused. */
  lemma BadTexts()
    ensures Patterns("<\0>") == None && Patterns("<a") == None && Patterns("a") == None && Patterns("*") == None
  {
    assert "<\0>"[1..] == "\0>" && Close("<\0>", '<', '>', 1, 1) == Close("<\0>", '<', '>', 2, 1) == Some(3);
    assert PatternEnd("<\0>") == Some((3, 3)) && "<\0>"[..3] == "<\0>";
    assert CloseComponent("<\0>", 1, 1) == None;
    assert Close("<a", '<', '>', 1, 1) == Close("<a", '<', '>', 2, 1) == None;
  }
}
