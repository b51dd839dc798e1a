/** The compiler from the text of a name expression to its tree of matchers. */
module RegexCompiler {
  import opened Octets
  import opened Sequences
  import opened RegexMatcher

  // What the compiler computes; None stands for the exception it throws

  /** The bracket depth after character `c`. */
  function Deeper(c: char, left: char, right: char, depth: nat): nat
    requires depth > 0
  {
    if c == left then depth + 1 else if c == right then depth - 1 else depth
  }

  /** The index just after the bracket that closes `depth` open ones. */
  function Close(expr: string, left: char, right: char, i: nat, depth: nat): (r: Option<nat>)
    requires i <= |expr|
    ensures r.Some? ==> i <= r.value <= |expr| && (depth > 0 ==> i < r.value)
    decreases |expr| - i
  {
    if depth == 0 then Some(i)
    else if i == |expr| then None
    else Close(expr, left, right, i + 1, Deeper(expr[i], left, right, depth))
  }

  /** Like `Close` for angle brackets, but a NUL character ends the text. */
  function CloseComponent(expr: string, i: nat, depth: nat): (r: Option<nat>)
    requires i <= |expr|
    ensures r.Some? ==> i <= r.value <= |expr| && (depth > 0 ==> i < r.value)
    decreases |expr| - i
  {
    if depth == 0 then Some(i)
    else if i == |expr| || expr[i] == '\0' then None
    else CloseComponent(expr, i + 1, Deeper(expr[i], '<', '>', depth))
  }

  function FirstIndex(s: string, c: char): (i: nat)
    ensures i <= |s|
  {
    if s == "" || s[0] == c then 0 else 1 + FirstIndex(s[1..], c)
  }

  /** Where the repetition that starts at `i` ends. */
  function RepetitionEnd(expr: string, i: nat): (r: Option<nat>)
    requires i <= |expr|
    ensures r.Some? ==> i <= r.value <= |expr|
  {
    if i == |expr| then Some(i)
    else if expr[i] in "+?*" then Some(i + 1)
    else if expr[i] == '{' then
      var j := i + FirstIndex(expr[i..], '}');
      if j == |expr| then None else Some(j + 1)
    else Some(i)
  }

  predicate Digits(s: string) {
    s != "" && forall i | 0 <= i < |s| :: '0' <= s[i] <= '9'
  }

  function Value(s: string): nat
    requires Digits(s)
  {
    (if |s| == 1 then 0 else 10 * Value(Up(s))) + (s[|s| - 1] as int - '0' as int)
  }

  function Range(lo: string, hi: string): Option<(nat, nat)> {
    if (lo != "" && !Digits(lo)) || (hi != "" && !Digits(hi)) || (lo == "" && hi == "") then None
    else
      var min, max := if lo == "" then 0 else Value(lo), if hi == "" then INT_MAX else Value(hi);
      if min <= max <= INT_MAX then Some((min, max)) else None
  }

  /** The bounds that a repetition's text stands for. */
  function Bounds(rep: string): Option<(nat, nat)> {
    if rep == "" then Some((1, 1))
    else if rep == "?" then Some((0, 1))
    else if rep == "+" then Some((1, INT_MAX))
    else if rep == "*" then Some((0, INT_MAX))
    else if |rep| < 2 || rep[0] != '{' || rep[|rep| - 1] != '}' then None
    else
      var inside := rep[1..|rep| - 1];
      var comma := FirstIndex(inside, ',');
      if comma == |inside| then (if inside == "" then None else Range(inside, inside))
      else Range(inside[..comma], inside[comma + 1..])
  }

  /** The bodies of the components from `i` to `last`. */
  function Bodies(expr: string, i: nat, last: nat): Option<seq<string>>
    requires i <= |expr| && last <= |expr|
    decreases |expr| - i
  {
    if i >= last then (if i == last then Some([]) else None)
    else if expr[i] != '<' then None
    else
      var end := CloseComponent(expr, i + 1, 1);
      if end.None? then None
      else
        var rest := Bodies(expr, end.value, last);
        if rest.None? then None else Some([expr[i + 1..end.value - 1]] + rest.value)
  }

  function ComponentSet(expr: string): Option<Matcher> {
    if expr == "" then None
    else if expr[0] == '<' then
      var end := CloseComponent(expr, 1, 1);
      if end != Some(|expr|) then None else Some(Set(true, [expr[1..|expr| - 1]]))
    else if expr[0] == '[' && |expr| > 1 && expr[|expr| - 1] == ']' then
      var negated := expr[1] == '^';
      var bodies := Bodies(expr, if negated then 2 else 1, |expr| - 1);
      if bodies.None? then None else Some(Set(!negated, bodies.value))
    else None
  }

  /** Where the pattern at the head of `expr` has its repetition, and where it ends. */
  function PatternEnd(expr: string): (r: Option<(nat, nat)>)
    requires expr != ""
    ensures r.Some? ==> 1 < r.value.0 <= r.value.1 <= |expr|
  {
    var atom := match expr[0]
                case '(' => Close(expr, '(', ')', 1, 1)
                case '<' => Close(expr, '<', '>', 1, 1)
                case '[' => Close(expr, '[', ']', 1, 1)
                case _ => None;
    if atom.None? then None
    else
      var end := RepetitionEnd(expr, atom.value);
      if end.None? then None else Some((atom.value, end.value))
  }

  /** The matcher of a pattern whose repetition starts at `indicator`. */
  function Pattern(expr: string, indicator: nat): Option<Matcher>
    requires 1 < indicator <= |expr|
    decreases |expr|, 1
  {
    var atom := if expr[0] == '(' then GroupOf(expr[..indicator]) else ComponentSet(expr[..indicator]);
    var bounds := Bounds(expr[indicator..]);
    if atom.None? then None
    else if expr[0] == '(' && indicator == |expr| then atom
    else if bounds.None? then None
    else Some(Repeat(atom.value, bounds.value.0, bounds.value.1))
  }

  function GroupOf(expr: string): Option<Matcher>
    requires |expr| > 1
    decreases |expr|, 0
  {
    if expr[0] != '(' || expr[|expr| - 1] != ')' then None
    else
      var list := Patterns(expr[1..|expr| - 1]);
      if list.None? then None else Some(Group(List(list.value), expr))
  }

  function Patterns(expr: string): Option<seq<Matcher>>
    decreases |expr|, 2
  {
    if expr == "" then Some([])
    else
      var end := PatternEnd(expr);
      if end.None? then None
      else
        var first := Pattern(expr[..end.value.1], end.value.0);
        var rest := Patterns(expr[end.value.1..]);
        if first.None? || rest.None? then None else Some([first.value] + rest.value)
  }

  // The compiler

  /** Compiles into matchers and pushes the text of every group on the back-reference list. */
  class Compiler {
    var refs: seq<string>

    constructor ()
      ensures refs == []
    {
      refs := [];
    }

    method ExtractSubPattern(expr: string, left: char, right: char, start: nat) returns (r: Option<nat>)
      requires start <= |expr| && left != right
      ensures r == Close(expr, left, right, start, 1)
    {
      var lcount, rcount, index := 1, 0, start;
      while lcount > rcount
        invariant start <= index <= |expr| && lcount >= rcount
        invariant Close(expr, left, right, start, 1) == Close(expr, left, right, index, lcount - rcount)
        decreases |expr| - index
      {
        if index >= |expr| {
          return None;
        }
        if expr[index] == left {
          lcount := lcount + 1;
        }
        if expr[index] == right {
          rcount := rcount + 1;
        }
        index := index + 1;
      }
      r := Some(index);
    }

    method ExtractRepetition(expr: string, start: nat) returns (r: Option<nat>)
      requires start <= |expr|
      ensures r == RepetitionEnd(expr, start)
    {
      if start == |expr| {
        return Some(start);
      }
      if expr[start] == '+' || expr[start] == '?' || expr[start] == '*' {
        return Some(start + 1);
      }
      if expr[start] != '{' {
        return Some(start);
      }
      var index := start;
      while index < |expr| && expr[index] != '}'
        invariant start <= index <= |expr|
        invariant FirstIndex(expr[start..], '}') == index - start + FirstIndex(expr[index..], '}')
      {
        assert expr[index..][1..] == expr[index + 1..];
        index := index + 1;
      }
      r := if index == |expr| then None else Some(index + 1);
    }

    method ExtractComponent(expr: string, start: nat) returns (r: Option<nat>)
      requires start <= |expr|
      ensures r == CloseComponent(expr, start, 1)
    {
      var lcount, rcount, index := 1, 0, start;
      while lcount > rcount
        invariant start <= index <= |expr| && lcount >= rcount
        invariant CloseComponent(expr, start, 1) == CloseComponent(expr, index, lcount - rcount)
        decreases |expr| - index
      {
        if index == |expr| || expr[index] == '\0' {
          return None;
        }
        if expr[index] == '<' {
          lcount := lcount + 1;
        } else if expr[index] == '>' {
          rcount := rcount + 1;
        }
        index := index + 1;
      }
      r := Some(index);
    }

    method CompileMultipleComponents(expr: string, start: nat, last: nat) returns (r: Option<seq<string>>)
      requires start <= |expr| && last <= |expr|
      ensures r == Bodies(expr, start, last)
    {
      var index, bodies := start, [];
      ghost var all := Bodies(expr, start, last);
      assert all.Some? ==> bodies + all.value == all.value;
      while index < last
        invariant start <= index <= |expr|
        invariant var rest := Bodies(expr, index, last);
                  Bodies(expr, start, last) == if rest.None? then None else Some(bodies + rest.value)
        decreases |expr| - index
      {
        if expr[index] != '<' {
          return None;
        }
        var end := ExtractComponent(expr, index + 1);
        if end.None? {
          return None;
        }
        ghost var rest := Bodies(expr, end.value, last);
        var body := expr[index + 1..end.value - 1];
        assert rest.Some? ==> bodies + ([body] + rest.value) == (bodies + [body]) + rest.value;
        bodies := bodies + [body];
        index := end.value;
      }
      assert bodies + [] == bodies;
      r := if index != last then None else Some(bodies);
    }

    method CompileComponentSet(expr: string) returns (r: Option<Matcher>)
      requires expr != ""
      ensures r == ComponentSet(expr)
    {
      if expr[0] == '<' {
        var end := ExtractComponent(expr, 1);
        return if end != Some(|expr|) then None else Some(Set(true, [expr[1..|expr| - 1]]));
      }
      if expr[0] != '[' || |expr| == 1 || expr[|expr| - 1] != ']' {
        return None;
      }
      var negated := expr[1] == '^';
      var bodies := CompileMultipleComponents(expr, if negated then 2 else 1, |expr| - 1);
      r := if bodies.None? then None else Some(Set(!negated, bodies.value));
    }

    /** A group is pushed on the back-reference list before anything inside it. */
    method CompileGroup(expr: string) returns (r: Option<Matcher>)
      requires |expr| > 1
      modifies this
      ensures r == GroupOf(expr)
      ensures r.Some? ==> refs == old(refs) + GroupTexts(r.value)
      decreases |expr|, 0
    {
      refs := refs + [expr];
      if expr[0] != '(' || expr[|expr| - 1] != ')' {
        return None;
      }
      var list := CompilePatterns(expr[1..|expr| - 1]);
      r := if list.None? then None else Some(Group(List(list.value), expr));
    }

    method CompilePattern(expr: string, indicator: nat) returns (r: Option<Matcher>)
      requires 1 < indicator <= |expr|
      modifies this
      ensures r == Pattern(expr, indicator)
      ensures r.Some? ==> refs == old(refs) + GroupTexts(r.value)
      decreases |expr|, 1
    {
      var atom;
      if expr[0] == '(' {
        atom := CompileGroup(expr[..indicator]);
        if indicator == |expr| {
          return atom;
        }
      } else {
        atom := CompileComponentSet(expr[..indicator]);
      }
      var bounds := Bounds(expr[indicator..]);
      r := if atom.None? || bounds.None? then None else Some(Repeat(atom.value, bounds.value.0, bounds.value.1));
    }

    method ExtractPattern(expr: string) returns (r: Option<(nat, nat)>)
      requires expr != ""
      ensures r == PatternEnd(expr)
    {
      var atom: Option<nat> := None;
      match expr[0] {
      case '(' =>
        atom := ExtractSubPattern(expr, '(', ')', 1);
      case '<' =>
        atom := ExtractSubPattern(expr, '<', '>', 1);
      case '[' =>
        atom := ExtractSubPattern(expr, '[', ']', 1);
      case _ =>
      }
      if atom.None? {
        return None;
      }
      var end := ExtractRepetition(expr, atom.value);
      r := if end.None? then None else Some((atom.value, end.value));
    }

    /** The pattern at the head of `tail`, and where it ends. */
    method CompileNext(tail: string) returns (r: Option<(Matcher, nat)>)
      requires tail != ""
      modifies this
      ensures r.None? ==> Patterns(tail).None?
      ensures r.Some? ==>
                && PatternEnd(tail).Some? && r.value.1 == PatternEnd(tail).value.1
                && Pattern(tail[..r.value.1], PatternEnd(tail).value.0) == Some(r.value.0)
                && refs == old(refs) + GroupTexts(r.value.0)
      decreases |tail|, 2
    {
      var end := ExtractPattern(tail);
      if end.None? {
        return None;
      }
      var item := CompilePattern(tail[..end.value.1], end.value.0);
      r := if item.None? then None else Some((item.value, end.value.1));
    }

    /** Scans the text from its front; `tail` is what is left of it. */
    method CompilePatterns(expr: string) returns (r: Option<seq<Matcher>>)
      modifies this
      ensures r == Patterns(expr)
      ensures r.Some? ==> refs == old(refs) + GroupTextsOf(r.value)
      decreases |expr|, 3
    {
      var tail, list := expr, [];
      LeadsStart(expr);
      while tail != ""
        invariant |tail| <= |expr| && Leads(expr, list, tail)
        invariant refs == old(refs) + GroupTextsOf(list)
        decreases |tail|
      {
        ghost var before := refs;
        var next := CompileNext(tail);
        if next.None? {
          return None;
        }
        var (item, end) := next.value;
        LeadsStep(expr, list, tail, item);
        Pushed(old(refs), list, item, before, refs);
        list, tail := list + [item], tail[end..];
      }
      assert list + [] == list;
      r := Some(list);
    }
  }

  /** Compiling `expr` gives `list` followed by what compiling `tail` gives. */
  ghost predicate Leads(expr: string, list: seq<Matcher>, tail: string) {
    Patterns(expr) == var rest := Patterns(tail); if rest.None? then None else Some(list + rest.value)
  }

  lemma LeadsStart(expr: string)
    ensures Leads(expr, [], expr)
  {
    var all := Patterns(expr);
    assert all.Some? ==> [] + all.value == all.value;
  }

  lemma LeadsStep(expr: string, list: seq<Matcher>, tail: string, item: Matcher)
    requires Leads(expr, list, tail) && tail != "" && PatternEnd(tail).Some?
    requires Pattern(tail[..PatternEnd(tail).value.1], PatternEnd(tail).value.0) == Some(item)
    ensures Leads(expr, list + [item], tail[PatternEnd(tail).value.1..])
  {
    var rest := Patterns(tail[PatternEnd(tail).value.1..]);
    assert rest.Some? ==> list + ([item] + rest.value) == (list + [item]) + rest.value;
  }

  lemma Pushed(start: seq<string>, list: seq<Matcher>, m: Matcher, before: seq<string>, after: seq<string>)
    requires before == start + GroupTextsOf(list) && after == before + GroupTexts(m)
    ensures after == start + GroupTextsOf(list + [m])
  {
    GroupTextsAppend(list, m);
    assert after == start + (GroupTextsOf(list) + GroupTexts(m));
  }

  lemma {:induction false} GroupTextsAppend(list: seq<Matcher>, m: Matcher)
    ensures GroupTextsOf(list + [m]) == GroupTextsOf(list) + GroupTexts(m)
  {
    if list == [] {
      assert [m][1..] == [];
    } else {
      assert (list + [m])[1..] == list[1..] + [m];
      GroupTextsAppend(list[1..], m);
    }
  }
}
