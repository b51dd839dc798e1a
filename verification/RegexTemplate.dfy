/** Templates: literals in angle brackets and references to what an expression captured. */
module RegexTemplate {
  import opened Octets
  import opened Sequences
  import opened RegexMatcher
  import opened RegexCompiler
  import opened RegexSyntax
  import U = Uri

  function DigitsEnd(s: string, i: nat): (j: nat)
    requires i <= |s|
    ensures i <= j <= |s| && (i < j ==> Digits(s[i..j]))
    decreases |s| - i
  {
    if i < |s| && '0' <= s[i] <= '9' then
      var j := DigitsEnd(s, i + 1);
      assert s[i..j] == [s[i]] + s[i + 1..j];
      j
    else i
  }

  /** The end of the template item at `i`: a reference, or a literal in angle brackets with something behind it. */
  function ItemEnd(template: string, i: nat): (r: Option<nat>)
    requires i < |template|
    ensures r.Some? ==> i + 1 < r.value <= |template|
  {
    if template[i] == '\\' then
      var j := DigitsEnd(template, i + 1);
      if j > i + 1 then Some(j) else None
    else if template[i] == '<' then
      var j := Close(template, '<', '>', i + 1, 1);
      if j.None? || j.value == |template| then None else j
    else None
  }

  /** Characters beyond ASCII stand for bytes that no literal may hold unescaped, so one byte will do for them all. */
  function Octet(c: char): Byte {
    if c < 128 as char then c as int else 255
  }

  function BytesOf(text: string): Bytes {
    seq(|text|, i requires 0 <= i < |text| => Octet(text[i]))
  }

  /** A literal is one component in escaped form; None stands for the exception on a bad escape. */
  function Spelled(text: string): Option<Slice> {
    var c := U.FromEscaped(BytesOf(text)); if c.None? then None else Some([c.value])
  }

  /** Reference 0 is the whole match, reference k the k-th group. */
  function Referred(whole: Slice, captures: seq<Slice>, k: nat): Option<Slice> {
    if k == 0 then Some(whole) else if k <= |captures| then Some(captures[k - 1]) else None
  }

  /** What is left of the components when a name takes them in: no name takes in an empty one. */
  function Appended(s: Slice): Slice {
    if s == [] then [] else (if s[0] == [] then [] else [s[0]]) + Appended(s[1..])
  }

  lemma {:induction false} AppendedKeeps(s: Slice)
    requires [] !in s
    ensures Appended(s) == s
  {
    if s == [] {
    } else {
      AppendedKeeps(s[1..]);
      assert [s[0]] + s[1..] == s;
    }
  }

  function AppendedTo(s: Option<Slice>): Option<Slice> {
    if s.None? then None else Some(Appended(s.value))
  }

  /** What the template item from `i` to `end` stands for. */
  function ItemMeaning(template: string, i: nat, end: nat, whole: Slice, captures: seq<Slice>): Option<Slice>
    requires i < |template| && ItemEnd(template, i) == Some(end)
  {
    AppendedTo(if template[i] == '<' then Spelled(template[i + 1..end - 1])
               else Referred(whole, captures, Value(template[i + 1..end])))
  }

  function Join(a: Option<Slice>, b: Option<Slice>): Option<Slice> {
    if a.None? || b.None? then None else Some(a.value + b.value)
  }

  lemma JoinAssociative(a: Option<Slice>, b: Option<Slice>, c: Option<Slice>)
    ensures Join(a, Join(b, c)) == Join(Join(a, b), c)
    ensures Join(Some([]), a) == a && Join(a, Some([])) == a
  {
    if a.Some? {
      assert [] + a.value == a.value && a.value + [] == a.value;
      if b.Some? && c.Some? {
        assert a.value + (b.value + c.value) == (a.value + b.value) + c.value;
      }
    }
  }

  /** What the template says from `i` on; None stands for an exception. */
  function Expansion(template: string, i: nat, whole: Slice, captures: seq<Slice>): Option<Slice>
    requires i <= |template|
    decreases |template| - i
  {
    if i == |template| then Some([])
    else
      var end := ItemEnd(template, i);
      if end.None? then None
      else Join(ItemMeaning(template, i, end.value, whole, captures), Expansion(template, end.value, whole, captures))
  }

  datatype Part = Literal(text: string) | Reference(digits: string)

  function PartText(p: Part): (t: string)
    ensures |t| > 0 && t[0] in "<\\"
  {
    match p
    case Literal(text) => "<" + text + ">"
    case Reference(digits) => "\\" + digits
  }

  function PartsText(parts: seq<Part>): string {
    if parts == [] then "" else PartText(parts[0]) + PartsText(parts[1..])
  }

  predicate GoodPart(p: Part) {
    match p
    case Literal(text) => Balanced(text, '<', '>')
    case Reference(digits) => Digits(digits)
  }

  function PartMeaning(p: Part, whole: Slice, captures: seq<Slice>): Option<Slice>
    requires GoodPart(p)
  {
    match p
    case Literal(text) => AppendedTo(Spelled(text))
    case Reference(digits) => AppendedTo(Referred(whole, captures, Value(digits)))
  }

  function PartsMeaning(parts: seq<Part>, whole: Slice, captures: seq<Slice>): Option<Slice>
    requires forall p | p in parts :: GoodPart(p)
  {
    if parts == [] then Some([])
    else Join(PartMeaning(parts[0], whole, captures), PartsMeaning(parts[1..], whole, captures))
  }

  lemma {:induction false} DigitsEndAt(s: string, i: nat, j: nat)
    requires i <= j <= |s| && (j == |s| || !('0' <= s[j] <= '9'))
    requires forall k | i <= k < j :: '0' <= s[k] <= '9'
    ensures DigitsEnd(s, i) == j
    decreases j - i
  {
    if i == j {
    } else {
      DigitsEndAt(s, i + 1, j);
    }
  }

  lemma EndOfLiteral(template: string, i: nat, text: string)
    requires At(template, i, "<" + text + ">") && Balanced(text, '<', '>')
    ensures ItemEnd(template, i) == if i + |text| + 2 == |template| then None else Some(i + |text| + 2)
    ensures template[i] == '<' && template[i + 1..i + 1 + |text|] == text
  {
    AtConcat(template, i, "<" + text, ">");
    AtConcat(template, i, "<", text);
    assert template[i..i + 1] == "<" && template[i + 1 + |text|..i + 2 + |text|] == ">";
    assert template[i] == '<' && template[i + 1 + |text|] == '>';
    CloseSkips(template, '<', '>', i + 1, text, 1);
  }

  lemma EndOfReference(template: string, i: nat, digits: string)
    requires At(template, i, "\\" + digits) && Digits(digits)
    requires var end := i + 1 + |digits|; end == |template| || template[end] in "<\\"
    ensures ItemEnd(template, i) == Some(i + 1 + |digits|)
    ensures template[i] == '\\' && template[i + 1..i + 1 + |digits|] == digits
  {
    AtConcat(template, i, "\\", digits);
    assert template[i..i + 1] == "\\";
    assert template[i] == '\\';
    forall k | i + 1 <= k < i + 1 + |digits| ensures '0' <= template[k] <= '9' {
      assert template[k] == template[i + 1..i + 1 + |digits|][k - i - 1];
    }
    DigitsEndAt(template, i + 1, i + 1 + |digits|);
  }

  lemma PartItem(template: string, i: nat, p: Part, whole: Slice, captures: seq<Slice>)
    requires GoodPart(p) && At(template, i, PartText(p))
    requires var end := i + |PartText(p)|; end == |template| || template[end] in "<\\"
    ensures var end := i + |PartText(p)|;
            if p.Literal? && end == |template| then ItemEnd(template, i) == None
            else
              && ItemEnd(template, i) == Some(end)
              && ItemMeaning(template, i, end, whole, captures) == PartMeaning(p, whole, captures)
  {
    match p
    case Literal(text) => EndOfLiteral(template, i, text);
    case Reference(digits) => EndOfReference(template, i, digits);
  }

  /** A template expands to what its parts stand for, except that it may not end with a literal. */
  lemma {:induction false} TemplateMeans(template: string, i: nat, parts: seq<Part>, whole: Slice, captures: seq<Slice>)
    requires forall p | p in parts :: GoodPart(p)
    requires At(template, i, PartsText(parts)) && i + |PartsText(parts)| == |template|
    ensures Expansion(template, i, whole, captures) ==
            if parts != [] && parts[|parts| - 1].Literal? then None else PartsMeaning(parts, whole, captures)
    decreases |parts|
  {
    if parts == [] {
    } else {
      var p, rest := parts[0], parts[1..];
      var end := i + |PartText(p)|;
      AtConcat(template, i, PartText(p), PartsText(rest));
      if rest != [] {
        assert template[end] == template[end..end + |PartsText(rest)|][0] == PartsText(rest)[0];
      }
      PartItem(template, i, p, whole, captures);
      TemplateMeans(template, end, rest, whole, captures);
    }
  }

  lemma WholeTemplateMeans(parts: seq<Part>, whole: Slice, captures: seq<Slice>)
    requires forall p | p in parts :: GoodPart(p)
    ensures Expansion(PartsText(parts), 0, whole, captures) ==
            if parts != [] && parts[|parts| - 1].Literal? then None else PartsMeaning(parts, whole, captures)
  {
    var t := PartsText(parts);
    assert t[0..|t|] == t;
    TemplateMeans(t, 0, parts, whole, captures);
  }

  /** The literal unescapes, or the reference is within range. */
  predicate Works(p: Part, captures: seq<Slice>)
    requires GoodPart(p)
  {
    match p
    case Literal(text) => U.FromEscaped(BytesOf(text)).Some?
    case Reference(digits) => Value(digits) <= |captures|
  }

  lemma {:induction false} PartsWork(parts: seq<Part>, whole: Slice, captures: seq<Slice>)
    requires forall p | p in parts :: GoodPart(p)
    ensures PartsMeaning(parts, whole, captures).Some? <==> forall p | p in parts :: Works(p, captures)
  {
    if parts == [] {
    } else {
      PartsWork(parts[1..], whole, captures);
      assert PartMeaning(parts[0], whole, captures).Some? <==> Works(parts[0], captures);
      if PartsMeaning(parts, whole, captures).Some? {
        forall p | p in parts ensures Works(p, captures) {
          assert p == parts[0] || p in parts[1..];
        }
      } else if Works(parts[0], captures) {
        var p :| p in parts[1..] && !Works(p, captures);
        assert p in parts;
      }
    }
  }

  /** A written template raises no exception exactly when it does not end with a literal and every part works. */
  lemma ExpandsExactly(parts: seq<Part>, whole: Slice, captures: seq<Slice>)
    requires forall p | p in parts :: GoodPart(p)
    ensures Expansion(PartsText(parts), 0, whole, captures).Some?
            <==> (parts == [] || parts[|parts| - 1].Reference?) && forall p | p in parts :: Works(p, captures)
  {
    WholeTemplateMeans(parts, whole, captures);
    PartsWork(parts, whole, captures);
  }

  /** The item from `i` to `end` is the text of a part. */
  lemma ItemIsPart(template: string, i: nat, end: nat) returns (p: Part)
    requires i < |template| && ItemEnd(template, i) == Some(end)
    ensures GoodPart(p) && PartText(p) == template[i..end] && (p.Literal? ==> end < |template|)
  {
    if template[i] == '<' {
      CloseMeans(template, '<', '>', i + 1, 1);
      p := Literal(template[i + 1..end - 1]);
      assert template[i..end] == "<" + template[i + 1..end - 1] + ">";
    } else {
      p := Reference(template[i + 1..end]);
      assert template[i..end] == "\\" + template[i + 1..end];
    }
  }

  lemma WrittenCons(template: string, i: nat, end: nat, p: Part, rest: seq<Part>)
    requires i <= end <= |template| && PartText(p) == template[i..end] && PartsText(rest) == template[end..]
    ensures PartsText([p] + rest) == template[i..]
  {
    assert ([p] + rest)[1..] == rest && template[i..] == template[i..end] + template[end..];
  }

  /** Whatever expands was written. */
  lemma {:induction false} ExpandedIsWritten(template: string, i: nat, whole: Slice, captures: seq<Slice>)
    returns (parts: seq<Part>)
    requires i <= |template| && Expansion(template, i, whole, captures).Some?
    ensures (forall p | p in parts :: GoodPart(p)) && PartsText(parts) == template[i..]
    ensures parts != [] ==> parts[|parts| - 1].Reference?
    decreases |template| - i
  {
    if i == |template| {
      parts := [];
    } else {
      var end := ItemEnd(template, i).value;
      var p := ItemIsPart(template, i, end);
      var rest := ExpandedIsWritten(template, end, whole, captures);
      parts := [p] + rest;
      WrittenCons(template, i, end, p, rest);
    }
  }

  /** A template expands to `r` exactly when it is written of parts, not ending with a literal, that come to `r`. */
  lemma ExpandsExactlyTheWritten(template: string, whole: Slice, captures: seq<Slice>, r: Slice)
    ensures Expansion(template, 0, whole, captures) == Some(r)
            <==> exists parts :: Written(template, parts) && PartsMeaning(parts, whole, captures) == Some(r)
  {
    if Expansion(template, 0, whole, captures).Some? {
      var parts := ExpandedIsWritten(template, 0, whole, captures);
      assert template[0..] == template;
      WholeTemplateMeans(parts, whole, captures);
      assert Written(template, parts);
    }
    forall parts | Written(template, parts)
      ensures Expansion(template, 0, whole, captures) == PartsMeaning(parts, whole, captures)
    {
      WholeTemplateMeans(parts, whole, captures);
    }
  }

  ghost predicate Written(template: string, parts: seq<Part>) {
    && (forall p | p in parts :: GoodPart(p)) && PartsText(parts) == template
    && (parts != [] ==> parts[|parts| - 1].Reference?)
  }

  const ZERO := Reference("0")

  /** A literal with a bracket inside, or an empty one, and the whole match behind it. */
  const BRACKET_THEN_WHOLE := "<<a>>\\0"
  const EMPTY_THEN_WHOLE := "<>\\0"

  lemma BracketIsRefused(whole: Slice, captures: seq<Slice>)
    ensures Expansion(BRACKET_THEN_WHOLE, 0, whole, captures) == None
  {
    var p := Literal("<a>");
    ScanPlain("a", '<', '>', 2);
    assert BytesOf("<a>")[0] == 60 && Spelled("<a>").None?;
    TwoParts(p, ZERO, whole, captures);
    assert PartText(p) + PartText(ZERO) == BRACKET_THEN_WHOLE;
  }

  lemma EmptyMeans(whole: Slice, captures: seq<Slice>)
    ensures PartMeaning(Literal(""), whole, captures) == Some([])
  {
    assert BytesOf("") == [] && Spelled("") == Some([[]]);
    assert Appended([[]]) == [];
  }

  lemma ZeroMeans(whole: Slice, captures: seq<Slice>)
    ensures GoodPart(ZERO) && PartMeaning(ZERO, whole, captures) == Some(Appended(whole))
  {
    assert Value("0") == 0;
  }

  lemma EmptyAddsNothing(whole: Slice, captures: seq<Slice>)
    ensures Expansion(EMPTY_THEN_WHOLE, 0, whole, captures) == Some(Appended(whole))
  {
    EmptyMeans(whole, captures);
    ZeroMeans(whole, captures);
    TwoParts(Literal(""), ZERO, whole, captures);
    JoinAssociative(Some(Appended(whole)), None, None);
    assert PartText(Literal("")) + PartText(ZERO) == EMPTY_THEN_WHOLE;
  }

  /** A literal that holds a bracket is refused, and an empty one adds nothing. */
  lemma LiteralsAreUnescaped(whole: Slice, captures: seq<Slice>)
    ensures Expansion(BRACKET_THEN_WHOLE, 0, whole, captures) == None
    ensures Expansion(EMPTY_THEN_WHOLE, 0, whole, captures) == Some(Appended(whole))
  {
    BracketIsRefused(whole, captures);
    EmptyAddsNothing(whole, captures);
  }

  lemma TwoParts(p: Part, q: Part, whole: Slice, captures: seq<Slice>)
    requires GoodPart(p) && GoodPart(q) && q.Reference?
    ensures Expansion(PartText(p) + PartText(q), 0, whole, captures)
            == Join(PartMeaning(p, whole, captures), PartMeaning(q, whole, captures))
  {
    var both := [p, q];
    assert both[1..] == [q] && [q][1..] == [];
    assert PartsText([q]) == PartText(q) + PartsText([]) == PartText(q);
    assert PartsText(both) == PartText(p) + PartText(q);
    WholeTemplateMeans(both, whole, captures);
    var last := PartMeaning(q, whole, captures);
    assert PartsMeaning([q], whole, captures) == Join(last, PartsMeaning([], whole, captures));
    JoinAssociative(last, None, None);
  }

  /** A template that is one literal is refused. */
  lemma LoneLiteralFails(whole: Slice, captures: seq<Slice>)
    ensures Expansion("<a>", 0, whole, captures) == None
  {
    var p := [Literal("a")];
    assert p[1..] == [] && PartsText(p) == PartText(p[0]) + PartsText([]) == "<a>";
    WholeTemplateMeans(p, whole, captures);
  }

  /** The components that the item from `i` to `end` calls for. */
  method ItemComponents(template: string, i: nat, end: nat, whole: Slice, captures: seq<Slice>)
    returns (r: Option<Slice>)
    requires i < |template| && ItemEnd(template, i) == Some(end)
    ensures AppendedTo(r) == ItemMeaning(template, i, end, whole, captures)
  {
    if template[i] == '<' {
      var c := U.Unescape(BytesOf(template[i + 1..end - 1]));
      r := if c.None? then None else Some([c.value]);
    } else {
      r := Referred(whole, captures, Value(template[i + 1..end]));
    }
  }

  /** Appends the components one by one, as a name does. */
  method AppendAll(name: Slice, s: Slice) returns (r: Slice)
    ensures r == name + Appended(s)
  {
    r := name;
    var i := 0;
    while i < |s|
      invariant 0 <= i <= |s|
      invariant name + Appended(s) == r + Appended(s[i..])
    {
      AppendedFrom(s, i);
      if s[i] != [] {
        ConcatAssociative(r, [s[i]], Appended(s[i + 1..]));
        r := r + [s[i]];
      }
      i := i + 1;
    }
    assert r + [] == r;
  }

  lemma AppendedFrom(s: Slice, i: nat)
    requires i < |s|
    ensures Appended(s[i..]) == (if s[i] == [] then [] else [s[i]]) + Appended(s[i + 1..])
  {
    SuffixOfSuffix(s, i, 1);
  }

  /** A reference written in decimal expands to the capture with that number. */
  lemma PrintedReference(k: nat, z: nat, whole: Slice, captures: seq<Slice>)
    requires 1 <= k <= |captures|
    ensures Expansion("\\" + (Zeros(z) + Printed(k)), 0, whole, captures) == Some(Appended(captures[k - 1]))
  {
    PrintedReads(k, z);
    var p := [Reference(Zeros(z) + Printed(k))];
    assert p[1..] == [];
    assert PartsText(p) == PartText(p[0]) + PartsText([]) == PartText(p[0]);
    WholeTemplateMeans(p, whole, captures);
    var first := PartMeaning(p[0], whole, captures);
    assert PartsMeaning(p, whole, captures) == Join(first, PartsMeaning([], whole, captures));
    JoinAssociative(first, None, None);
  }

  lemma SpelledA()
    ensures Spelled("a") == Some([[97]])
  {
    U.UnescapedBytes(97);
    U.EscapeReadsBack([97]);
    assert BytesOf("a") == [97];
  }

  /** The literal <a> in front of the whole match. */
  lemma LiteralSample(whole: Slice, captures: seq<Slice>)
    ensures Expansion("<a>\\0", 0, whole, captures) == Some([[97]] + Appended(whole))
  {
    SpelledA();
    assert [[97]] + Appended([]) == [[97]] && [[97]][1..] == [];
    ScanPlain("a", '<', '>', 1);
    ZeroMeans(whole, captures);
    TwoParts(Literal("a"), ZERO, whole, captures);
    assert PartText(Literal("a")) + PartText(ZERO) == "<a>\\0";
  }
}
