/** The written form of name expressions, and that compiling it gives back what was written. */
module RegexSyntax {
  import opened Octets
  import opened Sequences
  import opened RegexMatcher
  import opened RegexCompiler

  datatype Rep =
    | Once
    | Optional
    | Plus
    | Star
    | Between(lo: string, hi: string)
    | UpTo(hi: string)
    | AtLeast(lo: string)
    | Exactly(lo: string)

  datatype Atom =
    | Single(body: string)
    | Bracket(negated: bool, bodies: seq<string>)
    | Paren(items: seq<Item>)

  datatype Item = Item(atom: Atom, rep: Rep)

  function RepText(rep: Rep): string {
    match rep
    case Once => ""
    case Optional => "?"
    case Plus => "+"
    case Star => "*"
    case Between(lo, hi) => "{" + (lo + "," + hi) + "}"
    case UpTo(hi) => "{" + ("" + "," + hi) + "}"
    case AtLeast(lo) => "{" + (lo + "," + "") + "}"
    case Exactly(n) => "{" + n + "}"
  }

  function BodiesText(bodies: seq<string>): string {
    if bodies == [] then "" else "<" + bodies[0] + ">" + BodiesText(bodies[1..])
  }

  function BracketText(negated: bool, bodies: seq<string>): string {
    (if negated then "^" else "") + BodiesText(bodies)
  }

  function AtomText(atom: Atom): (t: string)
    ensures |t| >= 2 && t[0] in "<[("
    decreases atom
  {
    match atom
    case Single(body) => "<" + body + ">"
    case Bracket(negated, bodies) => "[" + BracketText(negated, bodies) + "]"
    case Paren(items) => "(" + Text(items) + ")"
  }

  function ItemText(item: Item): (t: string)
    ensures t != "" && t[0] in "<[("
    decreases item
  {
    AtomText(item.atom) + RepText(item.rep)
  }

  /** The written form of a list of patterns. */
  function Text(items: seq<Item>): string
    decreases items
  {
    if items == [] then "" else ItemText(items[0]) + Text(items[1..])
  }

  function MinMax(rep: Rep): (nat, nat)
    requires GoodRep(rep)
  {
    match rep
    case Once => (1, 1)
    case Optional => (0, 1)
    case Plus => (1, INT_MAX)
    case Star => (0, INT_MAX)
    case Between(lo, hi) => (Value(lo), Value(hi))
    case UpTo(hi) => (0, Value(hi))
    case AtLeast(lo) => (Value(lo), INT_MAX)
    case Exactly(n) => (Value(n), Value(n))
  }

  /** Bounds are written in digits, fit an int and are in order. */
  predicate GoodRep(rep: Rep) {
    match rep
    case Once => true
    case Optional => true
    case Plus => true
    case Star => true
    case Between(lo, hi) => Digits(lo) && Digits(hi) && Value(lo) <= Value(hi) <= INT_MAX
    case UpTo(hi) => Digits(hi) && Value(hi) <= INT_MAX
    case AtLeast(lo) => Digits(lo) && Value(lo) <= INT_MAX
    case Exactly(n) => Digits(n) && Value(n) <= INT_MAX
  }

  /** The bracket depth after reading `s` from depth `d`; reading stops when everything is closed. */
  function Scan(s: string, left: char, right: char, d: nat): nat {
    if d == 0 || s == "" then d else Scan(s[1..], left, right, Deeper(s[0], left, right, d))
  }

  predicate Balanced(s: string, left: char, right: char) {
    Scan(s, left, right, 1) == 1
  }

  /** A component body has no NUL and closes the angle brackets that it opens. */
  predicate GoodBody(b: string) {
    '\0' !in b && Balanced(b, '<', '>')
  }

  /** Brackets and parentheses count wherever they stand between an atom's own pair, component bodies included. */
  predicate GoodAtom(atom: Atom)
    decreases atom
  {
    match atom
    case Single(body) => GoodBody(body)
    case Bracket(negated, bodies) =>
      (forall b | b in bodies :: GoodBody(b)) && Balanced(BracketText(negated, bodies), '[', ']')
    case Paren(items) => Good(items) && Balanced(Text(items), '(', ')')
  }

  predicate GoodItem(item: Item)
    decreases item
  {
    GoodAtom(item.atom) && GoodRep(item.rep)
  }

  predicate Good(items: seq<Item>)
    decreases items
  {
    items == [] || (GoodItem(items[0]) && Good(items[1..]))
  }

  /** The matcher that a written pattern stands for. */
  function AtomMatcher(atom: Atom): Matcher
    requires GoodAtom(atom)
    decreases atom
  {
    match atom
    case Single(body) => Set(true, [body])
    case Bracket(negated, bodies) => Set(!negated, bodies)
    case Paren(items) => Group(List(Meaning(items)), AtomText(atom))
  }

  function ItemMatcher(item: Item): Matcher
    requires GoodItem(item)
    decreases item
  {
    if item.atom.Paren? && item.rep.Once? then AtomMatcher(item.atom)
    else Repeat(AtomMatcher(item.atom), MinMax(item.rep).0, MinMax(item.rep).1)
  }

  function Meaning(items: seq<Item>): seq<Matcher>
    requires Good(items)
    decreases items
  {
    if items == [] then [] else [ItemMatcher(items[0])] + Meaning(items[1..])
  }

  /** The texts of the parenthesised patterns, in the order of their opening parentheses. */
  function ParenTexts(items: seq<Item>): seq<string>
    decreases items
  {
    if items == [] then [] else ItemParens(items[0]) + ParenTexts(items[1..])
  }

  function ItemParens(item: Item): seq<string>
    decreases item
  {
    if item.atom.Paren? then [AtomText(item.atom)] + ParenTexts(item.atom.items) else []
  }

  /** The groups of the matchers are the parenthesised patterns, in the same order. */
  lemma {:induction false} ParensAreGroups(items: seq<Item>)
    requires Good(items)
    ensures GroupTextsOf(Meaning(items)) == ParenTexts(items)
    decreases items
  {
    if items == [] {
    } else {
      ItemParensAreGroups(items[0]);
      ParensAreGroups(items[1..]);
      assert Meaning(items)[1..] == Meaning(items[1..]);
    }
  }

  lemma {:induction false} ItemParensAreGroups(item: Item)
    requires GoodItem(item)
    ensures GroupTexts(ItemMatcher(item)) == ItemParens(item)
    decreases item
  {
    var m := AtomMatcher(item.atom);
    assert GroupTexts(ItemMatcher(item)) == GroupTexts(m);
    if item.atom.Paren? {
      ParensAreGroups(item.atom.items);
      assert GroupTexts(m) == [m.text] + GroupTexts(m.inner);
    }
  }

  // Brackets

  lemma {:induction false} ScanConcat(s: string, t: string, left: char, right: char, d: nat)
    ensures Scan(s + t, left, right, d) == Scan(t, left, right, Scan(s, left, right, d))
  {
    if s == "" {
      assert s + t == t;
    } else if d > 0 {
      assert (s + t)[1..] == s[1..] + t;
      ScanConcat(s[1..], t, left, right, Deeper(s[0], left, right, d));
    }
  }

  lemma {:induction false} ScanDeeper(s: string, left: char, right: char, d: nat)
    requires Scan(s, left, right, d) > 0
    ensures Scan(s, left, right, d + 1) == Scan(s, left, right, d) + 1
  {
    if s != "" && d > 0 {
      ScanDeeper(s[1..], left, right, Deeper(s[0], left, right, d));
    }
  }

  lemma {:induction false} ScanPlain(s: string, left: char, right: char, d: nat)
    requires left !in s && right !in s
    ensures Scan(s, left, right, d) == d
  {
    if s == "" {
    } else {
      ScanPlain(s[1..], left, right, d);
    }
  }

  lemma BalancedConcat(s: string, t: string, left: char, right: char)
    requires Balanced(s, left, right) && Balanced(t, left, right)
    ensures Balanced(s + t, left, right)
  {
    ScanConcat(s, t, left, right, 1);
  }

  lemma BalancedWrap(s: string, left: char, right: char, open: char, shut: char)
    requires left != right && Balanced(s, left, right)
    requires (open == left && shut == right) || (open !in {left, right} && shut !in {left, right})
    ensures Balanced([open] + s + [shut], left, right)
  {
    ScanConcat([open] + s, [shut], left, right, 1);
    ScanConcat([open], s, left, right, 1);
    ScanDeeper(s, left, right, 1);
    assert Scan([open], left, right, 1) == if open == left then 2 else 1;
  }

  lemma {:induction false} BalancedBodies(bodies: seq<string>, left: char, right: char)
    requires left != right
    requires (left == '<' && right == '>') || (left !in {'<', '>'} && right !in {'<', '>'})
    requires forall b | b in bodies :: Balanced(b, left, right)
    ensures Balanced(BodiesText(bodies), left, right)
  {
    if bodies == [] {
    } else {
      BalancedWrap(bodies[0], left, right, '<', '>');
      BalancedBodies(bodies[1..], left, right);
      BalancedConcat("<" + bodies[0] + ">", BodiesText(bodies[1..]), left, right);
    }
  }

  // Finding the end of what was written

  /** Closing passes over `s` when `s` leaves brackets open. */
  lemma {:induction false} CloseSkips(expr: string, left: char, right: char, i: nat, s: string, d: nat)
    requires i + |s| <= |expr| && expr[i..i + |s|] == s && Scan(s, left, right, d) > 0
    ensures Close(expr, left, right, i, d) == Close(expr, left, right, i + |s|, Scan(s, left, right, d))
    decreases |s|
  {
    if s == "" {
    } else {
      assert expr[i] == s[0];
      assert expr[i + 1..i + 1 + |s[1..]|] == s[1..];
      CloseSkips(expr, left, right, i + 1, s[1..], Deeper(s[0], left, right, d));
    }
  }

  lemma {:induction false} CloseComponentSkips(expr: string, i: nat, s: string, d: nat)
    requires i + |s| <= |expr| && expr[i..i + |s|] == s && Scan(s, '<', '>', d) > 0 && '\0' !in s
    ensures CloseComponent(expr, i, d) == CloseComponent(expr, i + |s|, Scan(s, '<', '>', d))
    decreases |s|
  {
    if s == "" {
    } else {
      assert expr[i] == s[0];
      assert expr[i + 1..i + 1 + |s[1..]|] == s[1..];
      CloseComponentSkips(expr, i + 1, s[1..], Deeper(s[0], '<', '>', d));
    }
  }

  /** The bracket that opens a text closes right after its balanced inside. */
  lemma CloseAfter(expr: string, left: char, right: char, inside: string, rest: string)
    requires left != right && Balanced(inside, left, right)
    requires expr == [left] + inside + [right] + rest
    ensures Close(expr, left, right, 1, 1) == Some(|inside| + 2)
  {
    CloseSkips(expr, left, right, 1, inside, 1);
    assert expr[1 + |inside|] == right;
  }

  /** The character after a pattern: nothing, or the opening bracket of the next one. */
  lemma RepetitionEndAfter(expr: string, head: string, rep: Rep, rest: string)
    requires expr == head + RepText(rep) + rest && GoodRep(rep)
    requires rest == "" || rest[0] in "<[("
    ensures RepetitionEnd(expr, |head|) == Some(|head| + |RepText(rep)|)
  {
    var r := RepText(rep);
    assert expr[|head|..] == r + rest;
    if r != "" {
      assert expr[|head|] == r[0];
    } else if rest != "" {
      assert expr[|head|] == rest[0];
    }
    if r != "" && r[0] == '{' {
      BraceCloses(rep);
      FirstIndexAt(r + rest, '}', |r| - 1);
    }
  }

  lemma {:induction false} FirstIndexAt(s: string, c: char, i: nat)
    requires i < |s| && s[i] == c && forall j | 0 <= j < i :: s[j] != c
    ensures FirstIndex(s, c) == i
  {
    if i == 0 {
    } else {
      FirstIndexAt(s[1..], c, i - 1);
    }
  }

  lemma {:induction false} FirstIndexNone(s: string, c: char)
    requires c !in s
    ensures FirstIndex(s, c) == |s|
  {
    if s == "" {
    } else {
      FirstIndexNone(s[1..], c);
    }
  }

  lemma BraceCloses(rep: Rep)
    requires GoodRep(rep) && RepText(rep) != "" && RepText(rep)[0] == '{'
    ensures var r := RepText(rep); |r| >= 2 && r[|r| - 1] == '}' && forall j | 0 <= j < |r| - 1 :: r[j] != '}'
  {
  }

  lemma BoundsOfRange(lo: string, hi: string)
    requires lo == "" || Digits(lo)
    ensures Bounds("{" + (lo + "," + hi) + "}") == Range(lo, hi)
  {
    var r := "{" + (lo + "," + hi) + "}";
    var inside := r[1..|r| - 1];
    assert inside == lo + "," + hi;
    FirstIndexAt(inside, ',', |lo|);
    assert inside[..|lo|] == lo && inside[|lo| + 1..] == hi;
  }

  lemma BoundsOfNumber(n: string)
    requires Digits(n)
    ensures Bounds("{" + n + "}") == Range(n, n)
  {
    var r := "{" + n + "}";
    assert r[1..|r| - 1] == n;
    FirstIndexNone(n, ',');
  }

  lemma BoundsOfText(rep: Rep)
    requires GoodRep(rep)
    ensures Bounds(RepText(rep)) == Some(MinMax(rep))
  {
    match rep
    case Once =>
    case Optional =>
    case Plus =>
    case Star =>
    case Between(lo, hi) => BoundsOfRange(lo, hi);
    case UpTo(hi) => BoundsOfRange("", hi);
    case AtLeast(lo) => BoundsOfRange(lo, "");
    case Exactly(n) => BoundsOfNumber(n);
  }

  lemma ComponentCloses(expr: string, i: nat, body: string)
    requires GoodBody(body) && i + |body| + 1 <= |expr|
    requires expr[i..i + |body|] == body && expr[i + |body|] == '>'
    ensures CloseComponent(expr, i, 1) == Some(i + |body| + 1)
  {
    CloseComponentSkips(expr, i, body, 1);
  }

  /** The first of several bodies closes at `end`, where the others start. */
  lemma BodiesFront(expr: string, i: nat, bodies: seq<string>, last: nat) returns (end: nat)
    requires bodies != [] && GoodBody(bodies[0])
    requires last == i + |BodiesText(bodies)| <= |expr| && expr[i..last] == BodiesText(bodies)
    ensures i + 2 <= end <= last && expr[i] == '<' && CloseComponent(expr, i + 1, 1) == Some(end)
    ensures expr[i + 1..end - 1] == bodies[0]
    ensures last == end + |BodiesText(bodies[1..])| && expr[end..last] == BodiesText(bodies[1..])
  {
    var b, t := bodies[0], BodiesText(bodies);
    end := i + |b| + 2;
    assert t == "<" + b + ">" + BodiesText(bodies[1..]);
    assert expr[i] == t[0] && expr[i + 1 + |b|] == t[1 + |b|];
    SliceOfSlice(expr, i, last, 1, 1 + |b|);
    SliceOfSlice(expr, i, last, |b| + 2, |t|);
    assert t[1..1 + |b|] == b && t[|b| + 2..|t|] == BodiesText(bodies[1..]);
    ComponentCloses(expr, i + 1, b);
  }

  lemma BodiesStep(expr: string, i: nat, bodies: seq<string>, last: nat, end: nat)
    requires bodies != [] && i < last <= |expr| && i + 2 <= end <= |expr|
    requires expr[i] == '<' && CloseComponent(expr, i + 1, 1) == Some(end) && expr[i + 1..end - 1] == bodies[0]
    requires Bodies(expr, end, last) == Some(bodies[1..])
    ensures Bodies(expr, i, last) == Some(bodies)
  {
    assert [bodies[0]] + bodies[1..] == bodies;
  }

  lemma {:induction false} BodiesOfText(expr: string, i: nat, bodies: seq<string>, last: nat)
    requires forall b | b in bodies :: GoodBody(b)
    requires last == i + |BodiesText(bodies)| <= |expr| && expr[i..last] == BodiesText(bodies)
    ensures Bodies(expr, i, last) == Some(bodies)
    decreases |bodies|
  {
    if bodies == [] {
    } else {
      var end := BodiesFront(expr, i, bodies, last);
      BodiesOfText(expr, end, bodies[1..], last);
      BodiesStep(expr, i, bodies, last, end);
    }
  }

  lemma SetOfText(atom: Atom)
    requires GoodAtom(atom) && !atom.Paren?
    ensures ComponentSet(AtomText(atom)) == Some(AtomMatcher(atom))
  {
    var t := AtomText(atom);
    match atom
    case Single(body) =>
      assert t[1..1 + |body|] == body && t[1 + |body|] == '>';
      ComponentCloses(t, 1, body);
    case Bracket(negated, bodies) =>
      var from := if negated then 2 else 1;
      assert t[from..|t| - 1] == BodiesText(bodies);
      BodiesOfText(t, from, bodies, |t| - 1);
  }

  lemma AtomCloses(atom: Atom, rest: string)
    requires GoodAtom(atom)
    ensures var t := AtomText(atom);
            var left := t[0];
            var right := if left == '(' then ')' else if left == '<' then '>' else ']';
            Close(t + rest, left, right, 1, 1) == Some(|t|)
  {
    var t := AtomText(atom);
    match atom
    case Single(body) =>
      assert t + rest == ['<'] + body + ['>'] + rest;
      CloseAfter(t + rest, '<', '>', body, rest);
    case Bracket(negated, bodies) =>
      assert t + rest == ['['] + BracketText(negated, bodies) + [']'] + rest;
      CloseAfter(t + rest, '[', ']', BracketText(negated, bodies), rest);
    case Paren(items) =>
      assert t + rest == ['('] + Text(items) + [')'] + rest;
      CloseAfter(t + rest, '(', ')', Text(items), rest);
  }

  lemma TextStarts(items: seq<Item>)
    ensures Text(items) == "" || Text(items)[0] in "<[("
  {
  }

  lemma EndOfFirst(item: Item, rest: string)
    requires GoodItem(item) && (rest == "" || rest[0] in "<[(")
    ensures PatternEnd(ItemText(item) + rest) == Some((|AtomText(item.atom)|, |ItemText(item)|))
  {
    var a, r := AtomText(item.atom), RepText(item.rep);
    var expr := ItemText(item) + rest;
    assert expr == a + (r + rest) && expr == a + r + rest;
    AtomCloses(item.atom, r + rest);
    RepetitionEndAfter(expr, a, item.rep, rest);
  }

  // Round trip

  lemma {:induction false} PatternOfText(item: Item)
    requires GoodItem(item)
    ensures var a, r := AtomText(item.atom), RepText(item.rep);
            Pattern(a + r, |a|) == Some(ItemMatcher(item))
    decreases item
  {
    var a, r := AtomText(item.atom), RepText(item.rep);
    assert (a + r)[..|a|] == a && (a + r)[|a|..] == r;
    BoundsOfText(item.rep);
    if item.atom.Paren? {
      assert a[1..|a| - 1] == Text(item.atom.items);
      CompileGivesBack(item.atom.items);
    } else {
      SetOfText(item.atom);
    }
  }

  /** Compiling the written form of any list of patterns rebuilds its matchers. */
  lemma {:induction false} CompileGivesBack(items: seq<Item>)
    requires Good(items)
    ensures Patterns(Text(items)) == Some(Meaning(items))
    decreases items
  {
    if items == [] {
    } else {
      var first, rest := ItemText(items[0]), Text(items[1..]);
      TextStarts(items[1..]);
      EndOfFirst(items[0], rest);
      assert (first + rest)[..|first|] == first && (first + rest)[|first|..] == rest;
      PatternOfText(items[0]);
      CompileGivesBack(items[1..]);
    }
  }

  // Everything that compiles was written

  lemma {:induction false} CloseMeans(expr: string, left: char, right: char, i: nat, d: nat)
    requires left != right && d > 0 && i <= |expr| && Close(expr, left, right, i, d).Some?
    ensures var j := Close(expr, left, right, i, d).value - 1;
            expr[j] == right && Scan(expr[i..j], left, right, d) == 1
    decreases |expr| - i
  {
    var j, d' := Close(expr, left, right, i, d).value - 1, Deeper(expr[i], left, right, d);
    if d' == 0 {
    } else {
      CloseMeans(expr, left, right, i + 1, d');
      assert expr[i..j][1..] == expr[i + 1..j];
    }
  }

  lemma {:induction false} CloseComponentMeans(expr: string, i: nat, d: nat)
    requires d > 0 && i <= |expr| && CloseComponent(expr, i, d).Some?
    ensures var j := CloseComponent(expr, i, d).value - 1;
            expr[j] == '>' && Scan(expr[i..j], '<', '>', d) == 1 && '\0' !in expr[i..j]
    decreases |expr| - i
  {
    var j, d' := CloseComponent(expr, i, d).value - 1, Deeper(expr[i], '<', '>', d);
    if d' == 0 {
    } else {
      CloseComponentMeans(expr, i + 1, d');
      assert expr[i..j] == [expr[i]] + expr[i + 1..j];
    }
  }

  lemma Bracketed(expr: string, i: nat, end: nat, last: nat)
    requires i + 2 <= end <= last <= |expr| && expr[i] == '<' && expr[end - 1] == '>'
    ensures expr[i..last] == "<" + expr[i + 1..end - 1] + ">" + expr[end..last]
  {
  }

  lemma {:induction false} BodiesMean(expr: string, i: nat, last: nat)
    requires i <= |expr| && last <= |expr| && Bodies(expr, i, last).Some?
    ensures var bodies := Bodies(expr, i, last).value;
            i <= last && expr[i..last] == BodiesText(bodies) && forall b | b in bodies :: GoodBody(b)
    decreases |expr| - i
  {
    if i < last {
      var end := CloseComponent(expr, i + 1, 1).value;
      CloseComponentMeans(expr, i + 1, 1);
      BodiesMean(expr, end, last);
      Bracketed(expr, i, end, last);
    }
  }

  lemma SingleMeans(expr: string) returns (atom: Atom)
    requires |expr| > 1 && expr[0] == '<' && ComponentSet(expr).Some?
    ensures atom.Single? && AtomText(atom) == expr && GoodAtom(atom) && ComponentSet(expr) == Some(AtomMatcher(atom))
  {
    CloseComponentMeans(expr, 1, 1);
    var body := expr[1..|expr| - 1];
    assert expr == "<" + body + ">";
    atom := Single(body);
  }

  lemma BracketMeans(expr: string) returns (atom: Atom)
    requires |expr| > 1 && expr[0] != '<' && ComponentSet(expr).Some? && Balanced(expr[1..|expr| - 1], '[', ']')
    ensures atom.Bracket? && AtomText(atom) == expr && GoodAtom(atom) && ComponentSet(expr) == Some(AtomMatcher(atom))
  {
    var negated := expr[1] == '^';
    var bodies := BracketBodies(expr, negated);
    atom := Bracket(negated, bodies);
  }

  lemma Enclosed(expr: string, left: char, right: char)
    requires |expr| > 1 && expr[0] == left && expr[|expr| - 1] == right
    ensures expr == [left] + expr[1..|expr| - 1] + [right]
  {
  }

  lemma BracketBodies(expr: string, negated: bool) returns (bodies: seq<string>)
    requires |expr| > 1 && expr[0] == '[' && expr[|expr| - 1] == ']' && (negated ==> expr[1] == '^')
    requires Bodies(expr, if negated then 2 else 1, |expr| - 1).Some?
    ensures Bodies(expr, if negated then 2 else 1, |expr| - 1) == Some(bodies) && forall b | b in bodies :: GoodBody(b)
    ensures expr[1..|expr| - 1] == BracketText(negated, bodies) && expr == "[" + BracketText(negated, bodies) + "]"
  {
    var from := if negated then 2 else 1;
    BodiesMean(expr, from, |expr| - 1);
    bodies := Bodies(expr, from, |expr| - 1).value;
    Enclosed(expr, '[', ']');
    if negated {
      assert expr[1..|expr| - 1] == "^" + expr[2..|expr| - 1];
    } else {
      assert expr[1..|expr| - 1] == "" + expr[1..|expr| - 1];
    }
  }

  lemma SetMeans(expr: string) returns (atom: Atom)
    requires |expr| > 1 && ComponentSet(expr).Some?
    requires expr[0] == '[' ==> Balanced(expr[1..|expr| - 1], '[', ']')
    ensures !atom.Paren? && AtomText(atom) == expr && GoodAtom(atom) && ComponentSet(expr) == Some(AtomMatcher(atom))
  {
    if expr[0] == '<' {
      atom := SingleMeans(expr);
    } else {
      atom := BracketMeans(expr);
    }
  }

  lemma {:induction false} FirstIndexMeans(s: string, c: char)
    ensures var i := FirstIndex(s, c); i < |s| ==> s[i] == c
  {
    if s != "" && s[0] != c {
      FirstIndexMeans(s[1..], c);
    }
  }

  lemma BoundsMean(r: string) returns (rep: Rep)
    requires Bounds(r).Some?
    ensures GoodRep(rep) && RepText(rep) == r && Bounds(r) == Some(MinMax(rep))
  {
    if r == "" {
      rep := Once;
    } else if r == "?" {
      rep := Optional;
    } else if r == "+" {
      rep := Plus;
    } else if r == "*" {
      rep := Star;
    } else {
      var inside := r[1..|r| - 1];
      assert r == "{" + inside + "}";
      rep := InsideMeans(inside);
    }
  }

  lemma InsideMeans(inside: string) returns (rep: Rep)
    requires Bounds("{" + inside + "}").Some?
    ensures GoodRep(rep) && RepText(rep) == "{" + inside + "}" && Bounds("{" + inside + "}") == Some(MinMax(rep))
  {
    var r := "{" + inside + "}";
    assert r[1..|r| - 1] == inside;
    var comma := FirstIndex(inside, ',');
    FirstIndexMeans(inside, ',');
    if comma == |inside| {
      rep := Exactly(inside);
    } else {
      var lo, hi := inside[..comma], inside[comma + 1..];
      assert inside == lo + "," + hi;
      rep := if lo == "" then UpTo(hi) else if hi == "" then AtLeast(lo) else Between(lo, hi);
    }
  }

  /** Between an atom's own brackets, the brackets of its kind are balanced. */
  predicate ClosedAtom(a: string) {
    && |a| > 1
    && (a[0] == '(' ==> Balanced(a[1..|a| - 1], '(', ')'))
    && (a[0] == '[' ==> Balanced(a[1..|a| - 1], '[', ']'))
  }

  lemma PatternEndMeans(expr: string)
    requires expr != "" && PatternEnd(expr).Some?
    ensures ClosedAtom(expr[..PatternEnd(expr).value.0])
  {
    var a := expr[..PatternEnd(expr).value.0];
    var left := expr[0];
    var right := if left == '(' then ')' else if left == '<' then '>' else ']';
    CloseMeans(expr, left, right, 1, 1);
    SliceOfPrefix(expr, |a|, 1, |a| - 1);
  }

  lemma GroupIs(a: string, list: seq<Matcher>)
    requires |a| > 1 && a[0] == '(' && GroupOf(a).Some? && Patterns(a[1..|a| - 1]) == Some(list)
    ensures GroupOf(a) == Some(Group(List(list), a)) && a == "(" + a[1..|a| - 1] + ")"
  {
    assert a[|a| - 1] == ')';
    Enclosed(a, '(', ')');
  }

  lemma ParenMeans(a: string, items: seq<Item>)
    requires Good(items) && Balanced(Text(items), '(', ')') && a == "(" + Text(items) + ")"
    ensures GoodAtom(Paren(items)) && AtomText(Paren(items)) == a
    ensures AtomMatcher(Paren(items)) == Group(List(Meaning(items)), a)
  {
  }

  lemma {:induction false} AtomMeans(a: string) returns (atom: Atom)
    requires ClosedAtom(a) && (if a[0] == '(' then GroupOf(a) else ComponentSet(a)).Some?
    ensures GoodAtom(atom) && AtomText(atom) == a && (atom.Paren? <==> a[0] == '(')
    ensures (if a[0] == '(' then GroupOf(a) else ComponentSet(a)) == Some(AtomMatcher(atom))
    decreases |a|, 0
  {
    if a[0] == '(' {
      var items := PatternsMean(a[1..|a| - 1]);
      GroupIs(a, Meaning(items));
      ParenMeans(a, items);
      atom := Paren(items);
    } else {
      atom := SetMeans(a);
    }
  }

  lemma {:induction false} PatternMeans(a: string, r: string) returns (item: Item)
    requires ClosedAtom(a) && Pattern(a + r, |a|).Some?
    ensures GoodItem(item) && ItemText(item) == a + r && Pattern(a + r, |a|) == Some(ItemMatcher(item))
    decreases |a|, 1
  {
    assert (a + r)[..|a|] == a && (a + r)[|a|..] == r;
    var atom := AtomMeans(a);
    var rep := BoundsMean(r);
    item := Item(atom, rep);
  }

  lemma TextCons(item: Item, rest: seq<Item>)
    requires GoodItem(item) && Good(rest)
    ensures Good([item] + rest) && Text([item] + rest) == ItemText(item) + Text(rest)
    ensures Meaning([item] + rest) == [ItemMatcher(item)] + Meaning(rest)
  {
    assert ([item] + rest)[1..] == rest;
  }

  lemma {:induction false} PatternsMean(expr: string) returns (items: seq<Item>)
    requires Patterns(expr).Some?
    ensures Good(items) && Text(items) == expr && Patterns(expr) == Some(Meaning(items))
    decreases |expr|, 2
  {
    items := [];
    if expr != "" {
      var ends := PatternEnd(expr).value;
      var a, r := expr[..ends.0], expr[ends.0..ends.1];
      assert expr[..ends.1] == a + r && expr == a + r + expr[ends.1..];
      PatternEndMeans(expr);
      var item := PatternMeans(a, r);
      var rest := PatternsMean(expr[ends.1..]);
      items := [item] + rest;
      TextCons(item, rest);
    }
  }

  /** The compiler accepts exactly the written forms of well-formed patterns, and makes of them what they stand for. */
  lemma CompilesExactlyTheWritten(expr: string, list: seq<Matcher>)
    ensures Patterns(expr) == Some(list)
            <==> exists items :: Good(items) && Text(items) == expr && Meaning(items) == list
  {
    if Patterns(expr) == Some(list) {
      var items := PatternsMean(expr);
    }
    forall items | Good(items) && Text(items) == expr && Meaning(items) == list ensures Patterns(expr) == Some(list) {
      CompileGivesBack(items);
    }
  }

  // Component bodies that close every bracket they open

  predicate TidyBody(b: string) {
    GoodBody(b) && Balanced(b, '[', ']') && Balanced(b, '(', ')')
  }

  predicate TidyAtom(atom: Atom)
    decreases atom
  {
    match atom
    case Single(body) => TidyBody(body)
    case Bracket(_, bodies) => forall b | b in bodies :: TidyBody(b)
    case Paren(items) => Tidy(items)
  }

  predicate TidyItem(item: Item)
    decreases item
  {
    TidyAtom(item.atom) && GoodRep(item.rep)
  }

  predicate Tidy(items: seq<Item>)
    decreases items
  {
    items == [] || (TidyItem(items[0]) && Tidy(items[1..]))
  }

  lemma BalancedBracket(negated: bool, bodies: seq<string>, left: char, right: char)
    requires left != right && left !in {'<', '>', '^'} && right !in {'<', '>', '^'}
    requires forall b | b in bodies :: Balanced(b, left, right)
    ensures Balanced(BracketText(negated, bodies), left, right)
  {
    var caret := if negated then "^" else "";
    ScanPlain(caret, left, right, 1);
    BalancedBodies(bodies, left, right);
    BalancedConcat(caret, BodiesText(bodies), left, right);
  }

  lemma RepTextPlain(rep: Rep)
    requires GoodRep(rep)
    ensures '(' !in RepText(rep) && ')' !in RepText(rep)
  {
  }

  /** When every component body closes its own brackets, nesting needs no further condition. */
  lemma {:induction false} TidyIsGood(items: seq<Item>)
    requires Tidy(items)
    ensures Good(items) && Balanced(Text(items), '(', ')')
    decreases items
  {
    if items == [] {
    } else {
      TidyItemIsGood(items[0]);
      TidyIsGood(items[1..]);
      BalancedConcat(ItemText(items[0]), Text(items[1..]), '(', ')');
    }
  }

  lemma {:induction false} TidyItemIsGood(item: Item)
    requires TidyItem(item)
    ensures GoodItem(item) && Balanced(ItemText(item), '(', ')')
    decreases item
  {
    TidyAtomIsGood(item.atom);
    RepTextPlain(item.rep);
    ScanPlain(RepText(item.rep), '(', ')', 1);
    BalancedConcat(AtomText(item.atom), RepText(item.rep), '(', ')');
  }

  lemma {:induction false} TidyAtomIsGood(atom: Atom)
    requires TidyAtom(atom)
    ensures GoodAtom(atom) && Balanced(AtomText(atom), '(', ')')
    decreases atom
  {
    match atom
    case Single(body) =>
      BalancedWrap(body, '(', ')', '<', '>');
    case Bracket(negated, bodies) =>
      BalancedBracket(negated, bodies, '(', ')');
      BalancedBracket(negated, bodies, '[', ']');
      BalancedWrap(BracketText(negated, bodies), '(', ')', '[', ']');
    case Paren(items) =>
      TidyIsGood(items);
      BalancedWrap(Text(items), '(', ')', '(', ')');
  }

  // Numbers in decimal

  function Digit(d: nat): char
    requires d < 10
  {
    "0123456789"[d]
  }

  /** A number in decimal. */
  function Printed(n: nat): string {
    if n < 10 then [Digit(n)] else Printed(n / 10) + [Digit(n % 10)]
  }

  function Zeros(z: nat): string {
    if z == 0 then "" else "0" + Zeros(z - 1)
  }

  lemma DigitReads(d: nat)
    requires d < 10
    ensures '0' <= Digit(d) <= '9' && Digit(d) as int - '0' as int == d
  {
    assert d == 0 || d == 1 || d == 2 || d == 3 || d == 4 || d == 5 || d == 6 || d == 7 || d == 8 || d == 9;
  }

  lemma DigitsAppend(s: string, d: nat)
    requires d < 10 && (s == "" || Digits(s))
    ensures Digits(s + [Digit(d)]) && Value(s + [Digit(d)]) == (if s == "" then 0 else 10 * Value(s)) + d
  {
    DigitReads(d);
    SplitAppend(s, Digit(d));
  }

  lemma {:induction false} ZerosRead(z: nat)
    requires z > 0
    ensures Digits(Zeros(z)) && Value(Zeros(z)) == 0
  {
    if z == 1 {
      DigitReads(0);
      assert Zeros(1) == "" + [Digit(0)];
      DigitsAppend("", 0);
    } else {
      ZerosRead(z - 1);
      ZerosEnd(z - 1);
      DigitsAppend(Zeros(z - 1), 0);
    }
  }

  lemma {:induction false} ZerosEnd(z: nat)
    ensures Zeros(z + 1) == Zeros(z) + [Digit(0)]
  {
    if z == 0 {
    } else {
      ZerosEnd(z - 1);
      assert "0" + (Zeros(z - 1) + [Digit(0)]) == ("0" + Zeros(z - 1)) + [Digit(0)];
    }
  }

  /** A number written in decimal, with any zeros in front, is read as that number. */
  lemma {:induction false} PrintedReads(n: nat, z: nat)
    ensures Digits(Zeros(z) + Printed(n)) && Value(Zeros(z) + Printed(n)) == n
  {
    var front := Zeros(z);
    if z > 0 {
      ZerosRead(z);
    }
    if n < 10 {
      DigitsAppend(front, n);
    } else {
      PrintedReads(n / 10, z);
      ConcatAssociative(front, Printed(n / 10), [Digit(n % 10)]);
      DigitsAppend(front + Printed(n / 10), n % 10);
    }
  }

  lemma PrintedIsRead(n: nat)
    ensures Digits(Printed(n)) && Value(Printed(n)) == n
  {
    PrintedReads(n, 0);
    assert Zeros(0) + Printed(n) == Printed(n);
  }

  // What the marks stand for, in numbers

  lemma MarksMean()
    ensures Bounds("") == Some((1, 1)) && Bounds("?") == Some((0, 1))
    ensures Bounds("+") == Some((1, 2147483647)) && Bounds("*") == Some((0, 2147483647))
  {
  }

  /** Bounds written in decimal are those numbers, unless they are out of order or beyond an int. */
  lemma PrintedBounds(lo: nat, hi: nat)
    ensures Bounds("{" + (Printed(lo) + "," + Printed(hi)) + "}")
            == if lo <= hi <= 2147483647 then Some((lo, hi)) else None
    ensures Bounds("{" + Printed(lo) + "}") == if lo <= 2147483647 then Some((lo, lo)) else None
    ensures Bounds("{" + ("" + "," + Printed(hi)) + "}") == if hi <= 2147483647 then Some((0, hi)) else None
    ensures Bounds("{" + (Printed(lo) + "," + "") + "}")
            == if lo <= 2147483647 then Some((lo, 2147483647)) else None
  {
    PrintedIsRead(lo);
    PrintedIsRead(hi);
    BoundsOfRange(Printed(lo), Printed(hi));
    BoundsOfNumber(Printed(lo));
    BoundsOfRange("", Printed(hi));
    BoundsOfRange(Printed(lo), "");
  }

  lemma OneItem(item: Item)
    requires GoodItem(item)
    ensures Good([item]) && Text([item]) == ItemText(item) && Meaning([item]) == [ItemMatcher(item)]
    ensures Patterns(ItemText(item)) == Some([ItemMatcher(item)])
  {
    assert [item][1..] == [];
    assert Text([item]) == ItemText(item) + Text([]) && Meaning([item]) == [ItemMatcher(item)] + Meaning([]);
    CompileGivesBack([item]);
  }

  /** A component body with bounds in decimal compiles to that many repetitions. */
  lemma CountedBody(body: string, lo: nat, hi: nat)
    requires GoodBody(body) && lo <= hi <= 2147483647
    ensures Patterns("<" + body + ">" + ("{" + (Printed(lo) + "," + Printed(hi)) + "}"))
            == Some([Repeat(Set(true, [body]), lo, hi)])
  {
    PrintedIsRead(lo);
    PrintedIsRead(hi);
    OneItem(Item(Single(body), Between(Printed(lo), Printed(hi))));
  }

  /** A bracket compiles to a set of its bodies, negated when it starts with a caret. */
  lemma BracketCompiles(negated: bool, bodies: seq<string>)
    requires GoodAtom(Bracket(negated, bodies))
    ensures Patterns("[" + ((if negated then "^" else "") + BodiesText(bodies)) + "]")
            == Some([Repeat(Set(!negated, bodies), 1, 1)])
  {
    var item := Item(Bracket(negated, bodies), Once);
    OneItem(item);
    assert ItemText(item) == AtomText(item.atom) + "" == AtomText(item.atom);
  }
}
