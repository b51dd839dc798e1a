/** The greedy backtracking matcher over name components, with its capture groups. */
module RegexMatcher {
  import opened Octets
  import opened Sequences

  type Component = Bytes

  type Slice = seq<Component>

  /** Whether the expression of one component matches a component: decided by another library. */
  type Test = (string, Component) -> bool

  /** A capture group keeps the text that it was compiled from. */
  datatype Matcher =
    | Set(positive: bool, bodies: seq<string>)
    | Repeat(inner: Matcher, min: nat, max: nat)
    | List(items: seq<Matcher>)
    | Group(inner: Matcher, text: string)

  /** How many capture groups a matcher holds. Groups are numbered by their opening parenthesis. */
  function Groups(m: Matcher): nat {
    match m
    case Set(_, _) => 0
    case Repeat(inner, _, _) => Groups(inner)
    case List(items) => GroupsOf(items)
    case Group(inner, _) => 1 + Groups(inner)
  }

  function GroupsOf(items: seq<Matcher>): nat {
    if items == [] then 0 else Groups(items[0]) + GroupsOf(items[1..])
  }

  /** The texts of the groups, each before those inside it. */
  function GroupTexts(m: Matcher): seq<string> {
    match m
    case Set(_, _) => []
    case Repeat(inner, _, _) => GroupTexts(inner)
    case List(items) => GroupTextsOf(items)
    case Group(inner, text) => [text] + GroupTexts(inner)
  }

  function GroupTextsOf(items: seq<Matcher>): seq<string> {
    if items == [] then [] else GroupTexts(items[0]) + GroupTextsOf(items[1..])
  }

  lemma {:induction false} GroupTextsCount(m: Matcher)
    ensures |GroupTexts(m)| == Groups(m)
    decreases m
  {
    match m
    case Set(_, _) =>
    case Repeat(inner, _, _) => GroupTextsCount(inner);
    case List(items) => GroupTextsOfCount(items);
    case Group(inner, _) => GroupTextsCount(inner);
  }

  lemma {:induction false} GroupTextsOfCount(items: seq<Matcher>)
    ensures |GroupTextsOf(items)| == GroupsOf(items)
    decreases items
  {
    if items == [] {
    } else {
      GroupTextsCount(items[0]);
      GroupTextsOfCount(items[1..]);
    }
  }

  /** The group with number `k`, counted from 0. */
  function GroupAt(m: Matcher, k: nat): Matcher
    requires k < Groups(m)
    decreases m
  {
    match m
    case Repeat(inner, _, _) => GroupAt(inner, k)
    case List(items) => GroupAtOf(items, k)
    case Group(inner, _) => if k == 0 then m else GroupAt(inner, k - 1)
  }

  function GroupAtOf(items: seq<Matcher>, k: nat): Matcher
    requires k < GroupsOf(items)
    decreases items
  {
    var n := Groups(items[0]);
    if k < n then GroupAt(items[0], k) else GroupAtOf(items[1..], k - n)
  }

  /** The k-th group has the k-th text. */
  lemma {:induction false} GroupAtHasText(m: Matcher, k: nat)
    requires k < Groups(m)
    ensures k < |GroupTexts(m)| && GroupAt(m, k).Group? && GroupAt(m, k).text == GroupTexts(m)[k]
    decreases m
  {
    GroupTextsCount(m);
    match m
    case Repeat(inner, _, _) => GroupAtHasText(inner, k);
    case List(items) => GroupAtOfHasText(items, k);
    case Group(inner, _) =>
      if k == 0 {
      } else {
        GroupAtHasText(inner, k - 1);
      }
  }

  lemma {:induction false} GroupAtOfHasText(items: seq<Matcher>, k: nat)
    requires k < GroupsOf(items)
    ensures k < |GroupTextsOf(items)| && GroupAtOf(items, k).Group?
    ensures GroupAtOf(items, k).text == GroupTextsOf(items)[k]
    decreases items
  {
    GroupTextsOfCount(items);
    GroupTextsCount(items[0]);
    var n := Groups(items[0]);
    if k < n {
      GroupAtHasText(items[0], k);
    } else {
      GroupAtOfHasText(items[1..], k - n);
    }
  }

  // What a matcher accepts

  predicate Fits(test: Test, body: string, c: Component) {
    body == "" || test(body, c)
  }

  /** `s` is what the matcher takes in. A repetition takes the empty slice exactly when its minimum is 0. */
  ghost predicate Accepts(test: Test, m: Matcher, s: Slice)
    decreases m, 0
  {
    match m
    case Set(positive, bodies) => |s| == 1 && (positive <==> exists b | b in bodies :: Fits(test, b, s[0]))
    case Repeat(inner, min, max) => if s == [] then min == 0 else Repeated(test, inner, min, max, s)
    case List(items) => Splittable(test, items, s)
    case Group(inner, _) => Accepts(test, inner, s)
  }

  /** A set takes one component that some body fits, the empty body fitting all; a negated one takes just the others. */
  lemma SetTakes(test: Test, bodies: seq<string>, s: Slice)
    ensures Accepts(test, Set(true, bodies), s) <==> |s| == 1 && exists b | b in bodies :: b == "" || test(b, s[0])
    ensures Accepts(test, Set(false, bodies), s) <==> |s| == 1 && !Accepts(test, Set(true, bodies), s)
  {
    if |s| == 1 {
      assert forall b :: Fits(test, b, s[0]) <==> b == "" || test(b, s[0]);
    }
  }

  /** `lens` cuts `s` into one accepted piece for each of `items`. */
  ghost predicate Splits(test: Test, items: seq<Matcher>, s: Slice, lens: seq<nat>)
    decreases items, 0
  {
    if items == [] || lens == [] then items == [] && lens == [] && s == []
    else
      && lens[0] <= |s| && Accepts(test, items[0], s[..lens[0]])
      && Splits(test, items[1..], s[lens[0]..], lens[1..])
  }

  ghost predicate Splittable(test: Test, items: seq<Matcher>, s: Slice)
    decreases items, 1
  {
    exists lens :: Splits(test, items, s, lens)
  }

  /** `lens` cuts `s` into pieces that `inner` accepts. */
  ghost predicate Pieces(test: Test, inner: Matcher, s: Slice, lens: seq<nat>)
    decreases inner, 1 + |lens|
  {
    if lens == [] then s == []
    else
      && lens[0] <= |s| && Accepts(test, inner, s[..lens[0]])
      && Pieces(test, inner, s[lens[0]..], lens[1..])
  }

  /** Mathematical repetition: `s` is a sequence of `min` to `max` accepted pieces. */
  ghost predicate Repeated(test: Test, inner: Matcher, min: nat, max: nat, s: Slice)
    decreases inner
  {
    exists lens :: min <= |lens| <= max && Pieces(test, inner, s, lens)
  }

  /** The order in which the matcher prefers splits: longer pieces first. */
  predicate LexLeq(a: seq<nat>, b: seq<nat>) {
    a == [] || (b != [] && (a[0] < b[0] || (a[0] == b[0] && LexLeq(a[1..], b[1..]))))
  }

  ghost predicate GreatestSplit(test: Test, items: seq<Matcher>, s: Slice, lens: seq<nat>) {
    Splits(test, items, s, lens) && forall other | Splits(test, items, s, other) :: LexLeq(other, lens)
  }

  /** After `r` repetitions, `lens` finishes `s` within the bounds and does not end with an empty piece. */
  ghost predicate Runs(test: Test, m: Matcher, r: nat, s: Slice, lens: seq<nat>)
    requires m.Repeat?
  {
    && m.min <= r + |lens| <= m.max
    && Pieces(test, m.inner, s, lens)
    && (lens != [] ==> lens[|lens| - 1] > 0)
  }

  ghost predicate Finishes(test: Test, m: Matcher, r: nat, s: Slice)
    requires m.Repeat?
  {
    exists lens :: Runs(test, m, r, s, lens)
  }

  ghost predicate GreatestRun(test: Test, m: Matcher, r: nat, s: Slice, lens: seq<nat>)
    requires m.Repeat?
  {
    Runs(test, m, r, s, lens) && forall other | Runs(test, m, r, s, other) :: LexLeq(other, lens)
  }

  // Repetition

  lemma {:induction false} PiecesLastEmpty(test: Test, inner: Matcher, s: Slice, lens: seq<nat>)
    requires Pieces(test, inner, s, lens) && lens != [] && lens[|lens| - 1] == 0
    ensures Accepts(test, inner, []) && Pieces(test, inner, s, Up(lens))
    decreases |lens|
  {
    if |lens| == 1 {
      assert s[..0] == [] && s[0..] == s;
    } else {
      PiecesLastEmpty(test, inner, s[lens[0]..], lens[1..]);
      assert Up(lens)[1..] == Up(lens[1..]);
    }
  }

  /** Empty pieces can be moved to the front, where the matcher looks for them. */
  lemma {:induction false} EmptiesFirst(test: Test, inner: Matcher, s: Slice, lens: seq<nat>) returns (run: seq<nat>)
    requires s != [] && Pieces(test, inner, s, lens)
    ensures |run| == |lens| && Pieces(test, inner, s, run) && run != [] && run[|run| - 1] > 0
    decreases |lens|
  {
    if lens[|lens| - 1] > 0 {
      run := lens;
    } else {
      PiecesLastEmpty(test, inner, s, lens);
      var rest := EmptiesFirst(test, inner, s, Up(lens));
      run := [0] + rest;
      assert s[..0] == [] && s[0..] == s && run[1..] == rest;
    }
  }

  /** The matcher's bounded search over a non-empty slice decides mathematical repetition. */
  lemma FinishesIsRepeated(test: Test, m: Matcher, s: Slice)
    requires m.Repeat? && s != []
    ensures Finishes(test, m, 0, s) <==> Repeated(test, m.inner, m.min, m.max, s)
  {
    if Repeated(test, m.inner, m.min, m.max, s) {
      var lens :| m.min <= |lens| <= m.max && Pieces(test, m.inner, s, lens);
      var run := EmptiesFirst(test, m.inner, s, lens);
      assert Runs(test, m, 0, s, run);
    }
  }

  lemma {:induction false} EmptyPieces(test: Test, inner: Matcher, lens: seq<nat>)
    requires Pieces(test, inner, [], lens) && lens != []
    ensures Accepts(test, inner, [])
  {
  }

  lemma {:induction false} ManyEmpties(test: Test, inner: Matcher, n: nat) returns (lens: seq<nat>)
    requires Accepts(test, inner, [])
    ensures |lens| == n && Pieces(test, inner, [], lens)
  {
    lens := [];
    if n > 0 {
      var rest := ManyEmpties(test, inner, n - 1);
      lens := [0] + rest;
      var e: Slice := [];
      assert e[..0] == [] && e[0..] == [] && lens[1..] == rest;
    }
  }

  /** A repetition is mathematical repetition exactly when its minimum is 0 or its body refuses the empty slice. */
  lemma RepeatIsRepetition(test: Test, inner: Matcher, min: nat, max: nat)
    requires min <= max
    ensures (forall s :: Accepts(test, Repeat(inner, min, max), s) <==> Repeated(test, inner, min, max, s))
            <==> (min == 0 || !Accepts(test, inner, []))
  {
    var m, e: Slice := Repeat(inner, min, max), [];
    assert Pieces(test, inner, e, []);
    if min == 0 || !Accepts(test, inner, e) {
      if min > 0 {
        forall lens | min <= |lens| <= max ensures !Pieces(test, inner, e, lens) {
          if Pieces(test, inner, e, lens) {
            EmptyPieces(test, inner, lens);
          }
        }
      }
    } else {
      var lens := ManyEmpties(test, inner, min);
      assert Repeated(test, inner, min, max, e) && !Accepts(test, m, e);
    }
  }

  /** One repetition of an optional component refuses the empty slice, although the component accepts it. */
  lemma RepetitionCanRefuse(test: Test)
    ensures var optional := Repeat(Set(true, ["a"]), 0, 1);
            Repeated(test, optional, 1, 1, []) && !Accepts(test, Repeat(optional, 1, 1), [])
  {
    var lens := ManyEmpties(test, Repeat(Set(true, ["a"]), 0, 1), 1);
  }

  // Captures

  /** `cap` gives every group that takes part in the preferred match of `s` its own piece of `s`. */
  ghost predicate Captured(test: Test, m: Matcher, base: nat, s: Slice, cap: seq<Slice>)
    decreases m, 0
  {
    match m
    case Set(_, _) => true
    case Group(inner, _) => base < |cap| && cap[base] == s && Captured(test, inner, base + 1, s, cap)
    case List(items) =>
      exists lens :: GreatestSplit(test, items, s, lens) && CapturedAll(test, items, base, s, lens, cap)
    case Repeat(inner, _, _) =>
      s != [] ==> exists lens :: GreatestRun(test, m, 0, s, lens) && CapturedLast(test, inner, base, s, lens, cap)
  }

  ghost predicate CapturedAll(test: Test, items: seq<Matcher>, base: nat, s: Slice, lens: seq<nat>, cap: seq<Slice>)
    decreases items, 0
  {
    items == [] || lens == [] || lens[0] > |s| ||
    (Captured(test, items[0], base, s[..lens[0]], cap)
     && CapturedAll(test, items[1..], base + Groups(items[0]), s[lens[0]..], lens[1..], cap))
  }

  /** The groups of a repeated matcher hold what they took in the last repetition. */
  ghost predicate CapturedLast(test: Test, inner: Matcher, base: nat, s: Slice, lens: seq<nat>, cap: seq<Slice>)
    decreases inner, 1
  {
    lens != [] && lens[|lens| - 1] <= |s| && Captured(test, inner, base, s[|s| - lens[|lens| - 1]..], cap)
  }

  /** The groups that no repetition with minimum 0 stands above. */
  function Certain(m: Matcher, base: nat): set<nat>
    decreases m
  {
    match m
    case Set(_, _) => {}
    case Group(inner, _) => {base} + Certain(inner, base + 1)
    case List(items) => CertainOf(items, base)
    case Repeat(inner, min, _) => if min == 0 then {} else Certain(inner, base)
  }

  function CertainOf(items: seq<Matcher>, base: nat): set<nat>
    decreases items
  {
    if items == [] then {} else Certain(items[0], base) + CertainOf(items[1..], base + Groups(items[0]))
  }

  /** `a` and `b` differ at most in the `n` places from `base` on. */
  ghost predicate Framed(a: seq<Slice>, b: seq<Slice>, base: nat, n: nat) {
    |a| == |b| && forall k | 0 <= k < |a| && !(base <= k < base + n) :: a[k] == b[k]
  }

  ghost predicate SameOn(a: seq<Slice>, b: seq<Slice>, base: nat, n: nat) {
    |a| == |b| && forall k | 0 <= k < |a| && base <= k < base + n :: a[k] == b[k]
  }

  lemma {:induction false} CapturedFrame(test: Test, m: Matcher, base: nat, s: Slice, a: seq<Slice>, b: seq<Slice>)
    requires Captured(test, m, base, s, a) && SameOn(a, b, base, Groups(m))
    ensures Captured(test, m, base, s, b)
    decreases m, 0
  {
    match m
    case Set(_, _) =>
    case Group(inner, _) =>
      CapturedFrame(test, inner, base + 1, s, a, b);
    case List(items) =>
      var lens :| GreatestSplit(test, items, s, lens) && CapturedAll(test, items, base, s, lens, a);
      CapturedAllFrame(test, items, base, s, lens, a, b);
    case Repeat(inner, _, _) =>
      if s != [] {
        var lens :| GreatestRun(test, m, 0, s, lens) && CapturedLast(test, inner, base, s, lens, a);
        CapturedFrame(test, inner, base, s[|s| - lens[|lens| - 1]..], a, b);
        assert CapturedLast(test, inner, base, s, lens, b);
      }
  }

  lemma {:induction false} CapturedAllFrame(test: Test, items: seq<Matcher>, base: nat, s: Slice, lens: seq<nat>,
                                            a: seq<Slice>, b: seq<Slice>)
    requires CapturedAll(test, items, base, s, lens, a) && SameOn(a, b, base, GroupsOf(items))
    ensures CapturedAll(test, items, base, s, lens, b)
    decreases items, 0
  {
    if items != [] && lens != [] && lens[0] <= |s| {
      CapturedFrame(test, items[0], base, s[..lens[0]], a, b);
      CapturedAllFrame(test, items[1..], base + Groups(items[0]), s[lens[0]..], lens[1..], a, b);
    }
  }

  lemma Subslice(name: Slice, offset: nat, len: nat, t: nat)
    requires offset + len <= |name| && t <= len
    ensures name[offset..offset + len][..t] == name[offset..offset + t]
    ensures name[offset..offset + len][t..] == name[offset + t..offset + len]
  {
  }

  /** Longest first piece, then the greatest split of the rest: the greatest split of the whole. */
  lemma GreatestFrom(test: Test, items: seq<Matcher>, s: Slice, t: nat, rest: seq<nat>)
    requires items != [] && t <= |s| && Accepts(test, items[0], s[..t])
    requires GreatestSplit(test, items[1..], s[t..], rest)
    requires forall u | t < u <= |s| :: !(Accepts(test, items[0], s[..u]) && Splittable(test, items[1..], s[u..]))
    ensures GreatestSplit(test, items, s, [t] + rest)
  {
    assert ([t] + rest)[1..] == rest;
    forall other | Splits(test, items, s, other) ensures LexLeq(other, [t] + rest) {
      assert Splittable(test, items[1..], s[other[0]..]);
    }
  }

  lemma GreatestRunFrom(test: Test, m: Matcher, r: nat, s: Slice, t: nat, rest: seq<nat>)
    requires m.Repeat? && s != [] && t <= |s| && Accepts(test, m.inner, s[..t])
    requires GreatestRun(test, m, r + 1, s[t..], rest)
    requires forall u | t < u <= |s| :: !(Accepts(test, m.inner, s[..u]) && Finishes(test, m, r + 1, s[u..]))
    ensures GreatestRun(test, m, r, s, [t] + rest)
  {
    var lens := [t] + rest;
    assert lens[1..] == rest;
    if rest == [] {
      assert s[t..] == [];
    } else {
      assert lens[|lens| - 1] == rest[|rest| - 1];
    }
    forall other | Runs(test, m, r, s, other) ensures LexLeq(other, lens) {
      RunTail(test, m, r, s, other);
      assert Finishes(test, m, r + 1, s[other[0]..]);
    }
  }

  lemma RunTail(test: Test, m: Matcher, r: nat, s: Slice, lens: seq<nat>)
    requires m.Repeat? && s != [] && Runs(test, m, r, s, lens)
    ensures lens != [] && lens[0] <= |s| && Accepts(test, m.inner, s[..lens[0]])
    ensures Runs(test, m, r + 1, s[lens[0]..], lens[1..])
  {
    if |lens| > 1 {
      assert lens[1..][|lens| - 2] == lens[|lens| - 1];
    }
  }

  lemma OnlyEmptyRun(test: Test, inner: Matcher, lens: seq<nat>)
    requires Pieces(test, inner, [], lens) && (lens != [] ==> lens[|lens| - 1] > 0)
    ensures lens == []
  {
    if lens != [] {
      LastFits(test, inner, [], lens);
    }
  }

  lemma SplittableStep(test: Test, items: seq<Matcher>, s: Slice)
    requires items != [] && Splittable(test, items, s)
    ensures exists t | 0 <= t <= |s| :: Accepts(test, items[0], s[..t]) && Splittable(test, items[1..], s[t..])
  {
    var lens :| Splits(test, items, s, lens);
    assert Splittable(test, items[1..], s[lens[0]..]);
  }

  lemma FinishesStep(test: Test, m: Matcher, r: nat, s: Slice)
    requires m.Repeat? && s != [] && Finishes(test, m, r, s)
    ensures exists t | 0 <= t <= |s| :: Accepts(test, m.inner, s[..t]) && Finishes(test, m, r + 1, s[t..])
  {
    var lens :| Runs(test, m, r, s, lens);
    RunTail(test, m, r, s, lens);
    assert Finishes(test, m, r + 1, s[lens[0]..]);
  }

  // Everything that is written to the captures

  /** The captures after the matcher has tried `s`, whether or not it accepted. */
  ghost function After(test: Test, m: Matcher, base: nat, s: Slice, cap: seq<Slice>): (r: seq<Slice>)
    requires base + Groups(m) <= |cap|
    ensures |r| == |cap|
    decreases m, 1, 0, 0
  {
    match m
    case Set(_, _) => cap
    case Repeat(_, _, _) => AfterRun(test, m, 0, base, s, cap)
    case List(items) => AfterItems(test, items, base, s, cap)
    case Group(_, _) =>
      var c := AfterGroup(test, m, base, s, cap[base := []], |s|);
      if Accepts(test, m, s) then c[base := s] else c
  }

  /** A group tries its matcher on ever shorter slices until it takes the whole. */
  ghost function AfterGroup(test: Test, m: Matcher, base: nat, s: Slice, cap: seq<Slice>, tried: int): (r: seq<Slice>)
    requires m.Group? && -1 <= tried <= |s| && base + Groups(m) <= |cap|
    ensures |r| == |cap|
    decreases m, 0, 0, tried + 1
  {
    if tried < 0 then cap
    else
      var c := After(test, m.inner, base + 1, s[..tried], cap);
      if tried == |s| && Accepts(test, m.inner, s) then c else AfterGroup(test, m, base, s, c, tried - 1)
  }

  ghost function AfterItems(test: Test, items: seq<Matcher>, base: nat, s: Slice, cap: seq<Slice>): (r: seq<Slice>)
    requires base + GroupsOf(items) <= |cap|
    ensures |r| == |cap|
    decreases items, 0, 0, |s| + 2
  {
    if items == [] then cap else AfterTries(test, items, base, s, cap, |s|)
  }

  /** A list gives its first matcher ever shorter slices until the others take what is left. */
  ghost function AfterTries(test: Test, items: seq<Matcher>, base: nat, s: Slice, cap: seq<Slice>, tried: int)
    : (r: seq<Slice>)
    requires items != [] && -1 <= tried <= |s| && base + GroupsOf(items) <= |cap|
    ensures |r| == |cap|
    decreases items, 0, 0, tried + 1
  {
    if tried < 0 then cap
    else
      var c := After(test, items[0], base, s[..tried], cap);
      if !Accepts(test, items[0], s[..tried]) then AfterTries(test, items, base, s, c, tried - 1)
      else
        var d := AfterItems(test, items[1..], base + Groups(items[0]), s[tried..], c);
        if Splittable(test, items[1..], s[tried..]) then d else AfterTries(test, items, base, s, d, tried - 1)
  }

  /** A repetition does nothing to an empty slice, or when it has none left. */
  ghost function AfterRun(test: Test, m: Matcher, n: nat, base: nat, s: Slice, cap: seq<Slice>): (r: seq<Slice>)
    requires m.Repeat? && n <= m.max && base + Groups(m) <= |cap|
    ensures |r| == |cap|
    decreases m, 0, m.max - n, |s| + 2
  {
    if s == [] || n == m.max then cap else AfterTurns(test, m, n, base, s, cap, |s|)
  }

  ghost function AfterTurns(test: Test, m: Matcher, n: nat, base: nat, s: Slice, cap: seq<Slice>, tried: int)
    : (r: seq<Slice>)
    requires m.Repeat? && n < m.max && -1 <= tried <= |s| && base + Groups(m) <= |cap|
    ensures |r| == |cap|
    decreases m, 0, m.max - n, tried + 1
  {
    if tried < 0 then cap
    else
      var c := After(test, m.inner, base, s[..tried], cap);
      if !Accepts(test, m.inner, s[..tried]) then AfterTurns(test, m, n, base, s, c, tried - 1)
      else
        var d := AfterRun(test, m, n + 1, base, s[tried..], c);
        if Finishes(test, m, n + 1, s[tried..]) then d else AfterTurns(test, m, n, base, s, d, tried - 1)
  }

  /** A compiled expression with the mutable match results of its groups. */
  class Engine {
    const test: Test
    var captures: seq<Slice>

    constructor (test: Test, groups: nat)
      ensures this.test == test && captures == seq(groups, _ => [])
    {
      this.test, captures := test, seq(groups, _ => []);
    }

    method Match(m: Matcher, base: nat, name: Slice, offset: nat, len: nat) returns (ok: bool)
      requires offset + len <= |name| && base + Groups(m) <= |captures|
      modifies this
      ensures Framed(old(captures), captures, base, Groups(m))
      ensures ok <==> Accepts(test, m, name[offset..offset + len])
      ensures ok ==> Captured(test, m, base, name[offset..offset + len], captures)
      ensures !ok && m.Group? ==> captures[base] == []
      ensures captures == After(test, m, base, name[offset..offset + len], old(captures))
      decreases m, 1, 0
    {
      match m
      case Set(positive, bodies) =>
        ok := MatchSet(positive, bodies, name, offset, len);
      case Repeat(inner, min, max) =>
        if min == 0 && len == 0 {
          return true;
        }
        ghost var s := name[offset..offset + len];
        ghost var lens;
        ok, lens := MatchRepeat(m, 0, base, name, offset, len);
        if s != [] {
          FinishesIsRepeated(test, m, s);
        } else if ok {
          OnlyEmptyRun(test, inner, lens);
        }
      case List(items) =>
        ghost var lens;
        ok, lens := MatchItems(items, base, name, offset, len);
      case Group(inner, _) =>
        ok := MatchGroup(m, base, name, offset, len);
    }

    /** A component set takes exactly one component. */
    method MatchSet(positive: bool, bodies: seq<string>, name: Slice, offset: nat, len: nat) returns (ok: bool)
      requires offset + len <= |name|
      ensures ok <==> len == 1 && (positive <==> exists b | b in bodies :: b == "" || test(b, name[offset]))
      ensures ok <==> Accepts(test, Set(positive, bodies), name[offset..offset + len])
    {
      if len != 1 {
        return false;
      }
      var matched, i := false, 0;
      while i < |bodies| && !matched
        invariant 0 <= i <= |bodies|
        invariant matched <==> exists b | b in bodies[..i] :: Fits(test, b, name[offset])
      {
        matched := Fits(test, bodies[i], name[offset]);
        i := i + 1;
        assert bodies[..i] == bodies[..i - 1] + [bodies[i - 1]];
      }
      assert bodies[..|bodies|] == bodies;
      assert matched ==> exists b | b in bodies :: Fits(test, b, name[offset]);
      assert forall b :: Fits(test, b, name[offset]) <==> b == "" || test(b, name[offset]);
      ok := if positive then matched else !matched;
    }

    /** A group is a list of one matcher; it clears its result first and sets it when that matcher takes everything. */
    method MatchGroup(m: Matcher, base: nat, name: Slice, offset: nat, len: nat) returns (ok: bool)
      requires m.Group?
      requires offset + len <= |name| && base + Groups(m) <= |captures|
      modifies this
      ensures Framed(old(captures), captures, base, Groups(m))
      ensures ok <==> Accepts(test, m, name[offset..offset + len])
      ensures ok ==> Captured(test, m, base, name[offset..offset + len], captures)
      ensures !ok ==> captures[base] == []
      ensures captures == After(test, m, base, name[offset..offset + len], old(captures))
      decreases m, 0, 0
    {
      captures := captures[base := []];
      ghost var s := name[offset..offset + len];
      ghost var all := AfterGroup(test, m, base, s, captures, len);
      var tried: int := len;
      while tried >= 0
        invariant -1 <= tried <= len
        invariant Framed(old(captures), captures, base, Groups(m)) && captures[base] == []
        invariant tried < len ==> !Accepts(test, m, s)
        invariant all == AfterGroup(test, m, base, s, captures, tried)
      {
        Subslice(name, offset, len, tried);
        var took := Match(m.inner, base + 1, name, offset, tried);
        if took && len == tried {
          ghost var inner := captures;
          captures := captures[base := name[offset..offset + len]];
          CapturedFrame(test, m.inner, base + 1, s, inner, captures);
          return true;
        }
        assert s[..len] == s;
        tried := tried - 1;
      }
      ok := false;
    }

    method MatchItems(items: seq<Matcher>, base: nat, name: Slice, offset: nat, len: nat)
      returns (ok: bool, ghost lens: seq<nat>)
      requires offset + len <= |name| && base + GroupsOf(items) <= |captures|
      modifies this
      ensures Framed(old(captures), captures, base, GroupsOf(items))
      ensures ok <==> Splittable(test, items, name[offset..offset + len])
      ensures ok ==> GreatestSplit(test, items, name[offset..offset + len], lens)
      ensures ok ==> CapturedAll(test, items, base, name[offset..offset + len], lens, captures)
      ensures captures == AfterItems(test, items, base, name[offset..offset + len], old(captures))
      decreases items, 0, 0
    {
      ghost var s := name[offset..offset + len];
      lens := [];
      if items == [] {
        assert s == [] ==> Splits(test, items, s, []);
        ok := len == 0;
        return;
      }
      var first, rest := items[0], items[1..];
      ghost var all := AfterTries(test, items, base, s, captures, len);
      var tried: int := len;
      while tried >= 0
        invariant -1 <= tried <= len
        invariant Framed(old(captures), captures, base, GroupsOf(items))
        invariant forall u | tried < u <= len :: !(Accepts(test, first, s[..u]) && Splittable(test, rest, s[u..]))
        invariant all == AfterTries(test, items, base, s, captures, tried)
      {
        Subslice(name, offset, len, tried);
        var took := Match(first, base, name, offset, tried);
        if took {
          ghost var before := captures;
          ghost var tail;
          ok, tail := MatchItems(rest, base + Groups(first), name, offset + tried, len - tried);
          if ok {
            CapturedFrame(test, first, base, s[..tried], before, captures);
            GreatestFrom(test, items, s, tried, tail);
            lens := [tried] + tail;
            assert lens[1..] == tail;
            assert Splits(test, items, s, lens);
            return;
          }
        }
        tried := tried - 1;
      }
      ok := false;
      if Splittable(test, items, s) {
        SplittableStep(test, items, s);
      }
    }

    method MatchRepeat(m: Matcher, r: nat, base: nat, name: Slice, offset: nat, len: nat)
      returns (ok: bool, ghost lens: seq<nat>)
      requires m.Repeat? && r <= m.max
      requires offset + len <= |name| && base + Groups(m) <= |captures|
      modifies this
      ensures Framed(old(captures), captures, base, Groups(m))
      ensures ok <==> Finishes(test, m, r, name[offset..offset + len])
      ensures ok ==> GreatestRun(test, m, r, name[offset..offset + len], lens)
      ensures ok && len > 0 ==> CapturedLast(test, m.inner, base, name[offset..offset + len], lens, captures)
      ensures len == 0 ==> captures == old(captures)
      ensures captures == AfterRun(test, m, r, base, name[offset..offset + len], old(captures))
      decreases m, 0, m.max - r
    {
      ghost var s := name[offset..offset + len];
      lens := [];
      if 0 < len && r >= m.max {
        assert !Finishes(test, m, r, s);
        return false, [];
      }
      if 0 == len {
        EmptyFinish(test, m, r);
        ok := r >= m.min;
        return;
      }
      ghost var all := AfterTurns(test, m, r, base, s, captures, len);
      var tried: int := len;
      while tried >= 0
        invariant -1 <= tried <= len
        invariant Framed(old(captures), captures, base, Groups(m))
        invariant forall u | tried < u <= len :: !(Accepts(test, m.inner, s[..u]) && Finishes(test, m, r + 1, s[u..]))
        invariant all == AfterTurns(test, m, r, base, s, captures, tried)
      {
        Subslice(name, offset, len, tried);
        var took := Match(m.inner, base, name, offset, tried);
        if took {
          ghost var tail;
          ok, tail := MatchRepeat(m, r + 1, base, name, offset + tried, len - tried);
          if ok {
            GreatestRunFrom(test, m, r, s, tried, tail);
            LastCaptured(test, m, r, base, s, tried, tail, captures);
            lens := [tried] + tail;
            return;
          }
        }
        tried := tried - 1;
      }
      ok := false;
      if Finishes(test, m, r, s) {
        FinishesStep(test, m, r, s);
      }
    }
  }

  lemma EmptyFinish(test: Test, m: Matcher, r: nat)
    requires m.Repeat? && r <= m.max
    ensures Finishes(test, m, r, []) <==> r >= m.min
    ensures r >= m.min ==> GreatestRun(test, m, r, [], [])
  {
    if r >= m.min {
      assert Runs(test, m, r, [], []);
    }
    forall lens | Runs(test, m, r, [], lens) ensures lens == [] {
      OnlyEmptyRun(test, m.inner, lens);
    }
  }

  /** The last piece of a run is its first piece when nothing is left, and otherwise the last piece of the rest. */
  lemma LastOfRun(test: Test, m: Matcher, r: nat, s: Slice, t: nat, rest: seq<nat>)
    requires m.Repeat? && s != [] && t <= |s| && Runs(test, m, r + 1, s[t..], rest)
    ensures rest == [] ==> t == |s| && s[..t] == s[|s| - t..]
    ensures rest != [] ==>
              && t < |s|
              && rest[|rest| - 1] <= |s[t..]|
              && s[t..][|s[t..]| - rest[|rest| - 1]..] == s[|s| - rest[|rest| - 1]..]
  {
    if rest != [] {
      LastFits(test, m.inner, s[t..], rest);
    }
  }

  lemma LastCaptured(test: Test, m: Matcher, r: nat, base: nat, s: Slice, t: nat, rest: seq<nat>, cap: seq<Slice>)
    requires m.Repeat? && s != [] && t <= |s| && Runs(test, m, r + 1, s[t..], rest)
    requires t == |s| ==> Captured(test, m.inner, base, s[..t], cap)
    requires t < |s| ==> CapturedLast(test, m.inner, base, s[t..], rest, cap)
    ensures CapturedLast(test, m.inner, base, s, [t] + rest, cap)
  {
    LastOfRun(test, m, r, s, t, rest);
    if rest == [] {
    } else {
      assert ([t] + rest)[|rest|] == rest[|rest| - 1];
    }
  }

  lemma {:induction false} LastFits(test: Test, inner: Matcher, s: Slice, lens: seq<nat>)
    requires Pieces(test, inner, s, lens) && lens != []
    ensures lens[|lens| - 1] <= |s|
    decreases |lens|
  {
    if |lens| == 1 {
    } else {
      LastFits(test, inner, s[lens[0]..], lens[1..]);
    }
  }

  // A capture that is not the group's own

  /** A matcher without groups writes nothing. */
  lemma {:induction false} WritesNothing(test: Test, m: Matcher, base: nat, s: Slice, cap: seq<Slice>)
    requires Groups(m) == 0 && base <= |cap|
    ensures After(test, m, base, s, cap) == cap
    decreases m, 1, 0, 0
  {
    match m
    case Set(_, _) =>
    case Repeat(_, _, _) =>
      if s == [] || m.max == 0 {
      } else {
        TurnsWriteNothing(test, m, 0, base, s, cap, |s|);
      }
    case List(items) => ItemsWriteNothing(test, items, base, s, cap);
  }

  lemma {:induction false} ItemsWriteNothing(test: Test, items: seq<Matcher>, base: nat, s: Slice, cap: seq<Slice>)
    requires GroupsOf(items) == 0 && base <= |cap|
    ensures AfterItems(test, items, base, s, cap) == cap
    decreases items, 0, 0, |s| + 2
  {
    if items == [] {
    } else {
      TriesWriteNothing(test, items, base, s, cap, |s|);
    }
  }

  lemma {:induction false} TriesWriteNothing(test: Test, items: seq<Matcher>, base: nat, s: Slice, cap: seq<Slice>,
                                             tried: int)
    requires items != [] && -1 <= tried <= |s| && GroupsOf(items) == 0 && base <= |cap|
    ensures AfterTries(test, items, base, s, cap, tried) == cap
    decreases items, 0, 0, tried + 1
  {
    if tried < 0 {
    } else {
      WritesNothing(test, items[0], base, s[..tried], cap);
      ItemsWriteNothing(test, items[1..], base, s[tried..], cap);
      TriesWriteNothing(test, items, base, s, cap, tried - 1);
    }
  }

  lemma {:induction false} TurnsWriteNothing(test: Test, m: Matcher, n: nat, base: nat, s: Slice, cap: seq<Slice>,
                                             tried: int)
    requires m.Repeat? && n < m.max && -1 <= tried <= |s| && Groups(m) == 0 && base <= |cap|
    ensures AfterTurns(test, m, n, base, s, cap, tried) == cap
    decreases m, 0, m.max - n, tried + 1
  {
    if tried < 0 {
    } else {
      WritesNothing(test, m.inner, base, s[..tried], cap);
      if s[tried..] != [] && n + 1 < m.max {
        TurnsWriteNothing(test, m, n + 1, base, s[tried..], cap, |s[tried..]|);
      }
      TurnsWriteNothing(test, m, n, base, s, cap, tried - 1);
    }
  }

  /** The expression <a>, and the expression (<a>)? in front of it. */
  const ONE_A := Repeat(Set(true, ["a"]), 1, 1)
  const GROUP_A := Group(List([ONE_A]), "(<a>)")
  const MAYBE_A := Repeat(GROUP_A, 0, 1)

  /** One group that has captured nothing. */
  const NOTHING: seq<Slice> := [[]]

  lemma OneA(test: Test, c: Component)
    requires test("a", c)
    ensures Accepts(test, ONE_A, [c]) && !Accepts(test, ONE_A, [])
    ensures Splittable(test, [ONE_A], [c]) && !Splittable(test, [ONE_A], [])
    ensures Accepts(test, GROUP_A, [c])
  {
    var body := Set(true, ["a"]);
    assert "a" in ["a"] && Fits(test, "a", [c][0]);
    assert [c][..1] == [c] && [c][1..] == [] && Pieces(test, body, [], []);
    assert [1][1..] == [] && Pieces(test, body, [c], [1]);
    assert Repeated(test, body, 1, 1, [c]);
    assert [ONE_A][1..] == [] && Splits(test, [], [], []);
    assert Splits(test, [ONE_A], [c], [1]);
    if Splittable(test, [ONE_A], []) {
      SplittableStep(test, [ONE_A], []);
    }
  }

  lemma MaybeA(test: Test, c: Component)
    requires test("a", c)
    ensures Accepts(test, MAYBE_A, [c]) && Accepts(test, MAYBE_A, []) && Finishes(test, MAYBE_A, 1, [])
  {
    OneA(test, c);
    EmptyFinish(test, MAYBE_A, 1);
    assert [c][..1] == [c] && [c][1..] == [] && [1][1..] == [] && Pieces(test, GROUP_A, [], []);
    assert Pieces(test, GROUP_A, [c], [1]);
    assert Repeated(test, GROUP_A, 0, 1, [c]);
  }

  lemma SampleGroups()
    ensures Groups(ONE_A) == GroupsOf([ONE_A]) == Groups(List([ONE_A])) == 0
    ensures Groups(GROUP_A) == Groups(MAYBE_A) == 1
    ensures GroupsOf([MAYBE_A, ONE_A]) == Groups(List([MAYBE_A, ONE_A])) == 1
  {
    assert [ONE_A][1..] == [] && [MAYBE_A, ONE_A][1..] == [ONE_A];
    assert Groups(ONE_A) == Groups(Set(true, ["a"])) == 0;
    assert GroupsOf([ONE_A]) == Groups(ONE_A) + GroupsOf([]);
    assert Groups(GROUP_A) == 1 + Groups(List([ONE_A]));
  }

  lemma GroupWrites(test: Test, c: Component)
    requires test("a", c)
    ensures Groups(GROUP_A) == 1 && After(test, GROUP_A, 0, [c], NOTHING) == [[c]]
  {
    SampleGroups();
    OneA(test, c);
    assert [c][..1] == [c] && NOTHING[0 := []] == NOTHING;
    WritesNothing(test, List([ONE_A]), 1, [c], NOTHING);
    assert AfterGroup(test, GROUP_A, 0, [c], NOTHING, 1) == NOTHING;
    assert NOTHING[0 := [c]] == [[c]];
  }

  lemma MaybeWrites(test: Test, c: Component)
    requires test("a", c)
    ensures Groups(MAYBE_A) == 1 && After(test, MAYBE_A, 0, [c], NOTHING) == [[c]]
  {
    SampleGroups();
    OneA(test, c);
    MaybeA(test, c);
    GroupWrites(test, c);
    assert [c][..1] == [c] && [c][1..] == [];
    assert AfterTurns(test, MAYBE_A, 0, 0, [c], NOTHING, 1) == [[c]];
  }

  /**
   * (<a>)?<a> takes a name of one component only with its group left out,
   * and still the group holds the component afterwards: what the first attempt wrote.
   */
  lemma CaptureCanBeStale(test: Test, c: Component)
    requires test("a", c)
    ensures Accepts(test, List([MAYBE_A, ONE_A]), [c])
    ensures forall lens | Splits(test, [MAYBE_A, ONE_A], [c], lens) :: lens[0] == 0
    ensures Groups(List([MAYBE_A, ONE_A])) == 1 && After(test, List([MAYBE_A, ONE_A]), 0, [c], NOTHING) == [[c]]
  {
    var items := [MAYBE_A, ONE_A];
    SampleGroups();
    OneA(test, c);
    MaybeA(test, c);
    MaybeWrites(test, c);
    assert items[1..] == [ONE_A] && [c][..1] == [c] && [c][1..] == [] && [c][..0] == [] && [c][0..] == [c];
    var rest :| Splits(test, [ONE_A], [c], rest);
    assert ([0] + rest)[1..] == rest && Splits(test, items, [c], [0] + rest);
    forall lens | Splits(test, items, [c], lens) ensures lens[0] == 0 {
      assert lens[0] == 1 ==> Splittable(test, [ONE_A], []);
    }
    ItemsWriteNothing(test, [ONE_A], 1, [], [[c]]);
    ItemsWriteNothing(test, [ONE_A], 1, [c], [[c]]);
    assert After(test, MAYBE_A, 0, [], [[c]]) == AfterRun(test, MAYBE_A, 0, 0, [], [[c]]) == [[c]];
    assert AfterTries(test, items, 0, [c], [[c]], 0) == [[c]];
    assert AfterTries(test, items, 0, [c], NOTHING, 1) == AfterTries(test, items, 0, [c], [[c]], 0);
  }
}
