/** The compiled expression as an object: matching a name and expanding a template with what was captured. */
module RegexExpand {
  import opened Octets
  import opened Sequences
  import opened RegexMatcher
  import opened RegexCompiler
  import opened RegexSyntax
  import opened RegexTemplate
  import opened RegexTop

  /** `refs` are the texts of the groups of `list`, in the order of their opening parentheses. */
  predicate Refers(refs: seq<string>, list: seq<Matcher>) {
    refs == GroupTextsOf(list)
  }

  class TopMatcher {
    const primary: seq<Matcher>
    const secondary: Option<seq<Matcher>>
    const firstRefs: seq<string>
    const secondRefs: seq<string>
    const first: Engine
    const second: Engine
    var secondaryUsed: bool
    var result: Slice

    /** Each list has its references, the texts of its groups in order, and a capture for each of them. */
    ghost predicate Valid()
      reads this, first, second
    {
      && first != second && first.test == second.test
      && |first.captures| == |firstRefs| && Refers(firstRefs, primary)
      && |second.captures| == |secondRefs| && (secondary.Some? ==> Refers(secondRefs, secondary.value))
      && (secondaryUsed ==> secondary.Some?)
    }

    constructor (test: Test, primary: seq<Matcher>, secondary: Option<seq<Matcher>>,
                 firstRefs: seq<string>, secondRefs: seq<string>)
      requires Refers(firstRefs, primary) && (secondary.Some? ==> Refers(secondRefs, secondary.value))
      ensures Valid() && this.primary == primary && this.secondary == secondary && first.test == test
      ensures fresh(first) && fresh(second)
    {
      this.primary, this.secondary, this.firstRefs, this.secondRefs := primary, secondary, firstRefs, secondRefs;
      first := new Engine(test, |firstRefs|);
      second := new Engine(test, |secondRefs|);
      secondaryUsed, result := false, [];
    }

    /** The list whose match the captures belong to. */
    function Used(): seq<Matcher>
      reads this, first, second
      requires Valid()
    {
      if secondaryUsed then secondary.value else primary
    }

    /** The back references in force: reference `k` has capture `k`. */
    function Refs(): seq<string>
      reads this
    {
      if secondaryUsed then secondRefs else firstRefs
    }

    function Captures(): seq<Slice>
      reads this, first, second
    {
      if secondaryUsed then second.captures else first.captures
    }

    method Match(name: Slice) returns (ok: bool)
      requires Valid()
      modifies this, first, second
      ensures Valid()
      ensures ok <==> Accepts(first.test, List(primary), name) ||
                      (secondary.Some? && Accepts(first.test, List(secondary.value), name))
      ensures secondaryUsed <==> ok && !Accepts(first.test, List(primary), name)
      ensures result == if ok then name else []
      ensures ok ==> Accepts(first.test, List(Used()), name) && Captured(first.test, List(Used()), 0, name, Captures())
      ensures Refers(Refs(), Used()) && |Captures()| == |Refs()|
    {
      secondaryUsed, result := false, [];
      assert name[0..|name|] == name;
      GroupTextsOfCount(primary);
      ok := first.Match(List(primary), 0, name, 0, |name|);
      if ok {
        result := name;
        return;
      }
      if secondary.Some? {
        GroupTextsOfCount(secondary.value);
        ok := second.Match(List(secondary.value), 0, name, 0, |name|);
        if ok {
          result, secondaryUsed := name, true;
        }
      }
    }

    method Expand(template: string) returns (r: Option<Slice>)
      requires Valid()
      ensures r == Expansion(template, 0, result, Captures())
    {
      var captures := if secondaryUsed then second.captures else first.captures;
      var name, offset := [], 0;
      ghost var all := Expansion(template, 0, result, captures);
      JoinAssociative(all, all, all);
      while offset < |template|
        invariant 0 <= offset <= |template|
        invariant all == Join(Some(name), Expansion(template, offset, result, captures))
        decreases |template| - offset
      {
        var end := ItemEnd(template, offset);
        if end.None? {
          return None;
        }
        var head := ItemComponents(template, offset, end.value, result, captures);
        if head.None? {
          return None;
        }
        JoinAssociative(Some(name), AppendedTo(head), Expansion(template, end.value, result, captures));
        name := AppendAll(name, head.value);
        offset := end.value;
      }
      JoinAssociative(Some(name), None, None);
      r := Some(name);
    }
  }

  /** Compiles an expression; null stands for the exception. */
  method Compile(expr: string, test: Test) returns (t: TopMatcher?)
    requires expr != ""
    ensures t == null <==> TopLists(expr).None?
    ensures t != null ==>
              && fresh(t) && fresh(t.first) && fresh(t.second) && t.Valid() && t.first.test == test
              && TopLists(expr) == Some((t.primary, t.secondary))
  {
    var e := WithEnd(expr);
    var c1 := new Compiler();
    var c2 := new Compiler();
    var secondary: Option<seq<Matcher>> := None;
    if e == "" || e[0] != '^' {
      secondary := c2.CompilePatterns(WILDCARD + e);
      if secondary.None? {
        return null;
      }
    } else {
      e := e[1..];
    }
    var primary := c1.CompilePatterns(e);
    if primary.None? {
      return null;
    }
    t := new TopMatcher(test, primary.value, secondary, c1.refs, c2.refs);
  }

  // From the text of an expression to what a reference expands to

  lemma {:induction false} WithoutWildcard(list: seq<Matcher>, k: nat)
    ensures GroupTextsOf(list + [ANY]) == GroupTextsOf(list) && GroupsOf(list + [ANY]) == GroupsOf(list)
    ensures k < GroupsOf(list) ==> GroupAtOf(list + [ANY], k) == GroupAtOf(list, k)
    decreases |list|
  {
    if list == [] {
      assert list + [ANY] == [ANY] && [ANY][1..] == [];
    } else {
      assert (list + [ANY])[1..] == list[1..] + [ANY];
      WithoutWildcard(list[1..], if k < Groups(list[0]) then 0 else k - Groups(list[0]));
    }
  }

  lemma {:induction false} CertainWithWildcard(list: seq<Matcher>, base: nat)
    ensures CertainOf(list, base) <= CertainOf(list + [ANY], base)
    decreases |list|
  {
    if list == [] {
    } else {
      assert (list + [ANY])[1..] == list[1..] + [ANY];
      CertainWithWildcard(list[1..], base + Groups(list[0]));
    }
  }

  /** Wildcards at the ends of a list leave its groups and their numbers alone. */
  lemma SameGroups(list: seq<Matcher>, used: seq<Matcher>, k: nat)
    requires used in {list, list + [ANY], [ANY] + list, [ANY] + (list + [ANY])}
    ensures GroupTextsOf(used) == GroupTextsOf(list) && GroupsOf(used) == GroupsOf(list)
    ensures CertainOf(list, 0) <= CertainOf(used, 0)
    ensures k < GroupsOf(list) ==> GroupAtOf(used, k) == GroupAtOf(list, k)
  {
    var behind := list + [ANY];
    WithoutWildcard(list, k);
    CertainWithWildcard(list, 0);
    assert ([ANY] + list)[1..] == list && ([ANY] + behind)[1..] == behind;
    assert Groups(ANY) == 0 && GroupTexts(ANY) == [];
  }

  /** What a lone reference expands to. */
  lemma ReferenceExpands(digits: string, whole: Slice, captures: seq<Slice>)
    requires Digits(digits) && 1 <= Value(digits) <= |captures|
    ensures Expansion("\\" + digits, 0, whole, captures) == Some(Appended(captures[Value(digits) - 1]))
  {
    var p := [Reference(digits)];
    assert p[1..] == [];
    assert PartsText(p) == PartText(p[0]) + PartsText([]) == "\\" + digits;
    WholeTemplateMeans(p, whole, captures);
    var first := PartMeaning(p[0], whole, captures);
    assert PartsMeaning(p, whole, captures) == Join(first, PartsMeaning([], whole, captures));
    JoinAssociative(first, None, None);
  }

  /** Every reference within range expands to its own capture. */
  ghost predicate ReferencesExpand(whole: Slice, captures: seq<Slice>) {
    forall digits | Digits(digits) && 1 <= Value(digits) <= |captures| ::
      Expansion("\\" + digits, 0, whole, captures) == Some(Appended(captures[Value(digits) - 1]))
  }

  lemma ReferencesDoExpand(whole: Slice, captures: seq<Slice>)
    ensures ReferencesExpand(whole, captures)
  {
    forall digits | Digits(digits) && 1 <= Value(digits) <= |captures|
      ensures Expansion("\\" + digits, 0, whole, captures) == Some(Appended(captures[Value(digits) - 1]))
    {
      ReferenceExpands(digits, whole, captures);
    }
  }

  /**
   * Compiles and matches a written expression: the name matches exactly when the patterns take a slice of it that the
   * anchors allow; the captures are those of the preferred match; reference `k` is the k-th parenthesised pattern and,
   * unless a repetition with minimum 0 stands above that, expands to the slice of the name that the pattern took.
   */
  method MatchWritten(items: seq<Item>, fromStart: bool, toEnd: bool, test: Test, name: Slice)
    returns (t: TopMatcher, ok: bool)
    requires Good(items) && TopText(items, fromStart, toEnd) != ""
    requires AcceptsEverything(test) && |name| <= INT_MAX
    ensures fresh(t) && t.Valid() && t.Refs() == ParenTexts(items) && |t.Captures()| == |ParenTexts(items)|
    ensures ok <==> Found(test, Meaning(items), fromStart, toEnd, name)
    ensures ok ==> t.result == name && Captured(test, List(t.Used()), 0, name, t.Captures())
    ensures ok ==> forall k | k in CertainOf(Meaning(items), 0) :: Takes(test, items, k, name, t.Captures())
    ensures ReferencesExpand(t.result, t.Captures())
  {
    TopCompiles(items, fromStart, toEnd);
    var m := Compile(TopText(items, fromStart, toEnd), test);
    t := m;
    ok := t.Match(name);
    AnchorsMean(test, Meaning(items), fromStart, toEnd, name);
    UsedGroups(t, items, toEnd, name, ok);
    ReferencesDoExpand(t.result, t.Captures());
  }

  /** Capture `k` is a slice of the name that the k-th parenthesised pattern of `items` accepts. */
  ghost predicate Takes(test: Test, items: seq<Item>, k: nat, name: Slice, captures: seq<Slice>)
    requires Good(items)
  {
    && k < |ParenTexts(items)| && k < |captures| && k < GroupsOf(Meaning(items))
    && GroupAtOf(Meaning(items), k).Group? && GroupAtOf(Meaning(items), k).text == ParenTexts(items)[k]
    && Accepts(test, GroupAtOf(Meaning(items), k), captures[k]) && SliceOf(captures[k], name)
    && ([] !in name ==> Appended(captures[k]) == captures[k])
  }

  lemma UsedGroups(t: TopMatcher, items: seq<Item>, toEnd: bool, name: Slice, ok: bool)
    requires Good(items) && t.Valid() && |t.Captures()| == |t.Refs()| && Refers(t.Refs(), t.Used())
    requires var primary := Meaning(items) + (if toEnd then [] else [ANY]);
             t.primary == primary && (t.secondary.Some? ==> t.secondary.value == [ANY] + primary)
    requires ok ==> Accepts(t.first.test, List(t.Used()), name)
                    && Captured(t.first.test, List(t.Used()), 0, name, t.Captures())
    ensures t.Refs() == ParenTexts(items)
    ensures ok ==> forall k | k in CertainOf(Meaning(items), 0) :: Takes(t.first.test, items, k, name, t.Captures())
  {
    var list, used, test := Meaning(items), t.Used(), t.first.test;
    assert list + [] == list;
    SameGroups(list, used, 0);
    ParensAreGroups(items);
    GroupTextsOfCount(list);
    if ok {
      forall k | k in CertainOf(list, 0) ensures Takes(test, items, k, name, t.Captures()) {
        CertainOfInside(list, 0, k);
        SameGroups(list, used, k);
        GroupAtOfHasText(list, k);
        CaptureBelongs(test, List(used), 0, name, t.Captures(), k);
        if [] !in name {
          AppendedKeeps(t.Captures()[k]);
        }
      }
    }
  }
}
