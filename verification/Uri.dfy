/** Names as text: percent-escaping (section 2.1 of RFC 3986) and the name URI. */
module Uri {
  import opened Octets
  import opened Sequences

  const SLASH: Byte := 47
  const PERCENT: Byte := 37
  const COLON: Byte := 58

  type Name = seq<Bytes>

  // Escaping

  /** The bytes that are written as an escape; the slash is not one of them. */
  predicate Escaped(b: Byte) {
    b <= 32 || b in {34, 37, 60, 62, 92, 94, 96, 123, 124, 125} || b >= 127
  }

  function HexDigit(v: nat): Byte
    requires v < 16
  {
    if v < 10 then 48 + v else 55 + v
  }

  /** Both cases are read. */
  function HexValue(b: Byte): (r: Option<nat>)
    ensures r.Some? ==> r.value < 16
  {
    if 48 <= b <= 57 then Some(b - 48)
    else if 65 <= b <= 70 then Some(b - 55)
    else if 97 <= b <= 102 then Some(b - 87)
    else None
  }

  function EscapeByte(b: Byte): Bytes {
    if Escaped(b) then [PERCENT, HexDigit(b / 16), HexDigit(b % 16)] else [b]
  }

  function ToEscaped(s: Bytes): Bytes {
    if s == [] then [] else EscapeByte(s[0]) + ToEscaped(s[1..])
  }

  method Escape(s: Bytes) returns (r: Bytes)
    ensures r == ToEscaped(s)
  {
    r := [];
    var i := 0;
    assert s[0..] == s && [] + ToEscaped(s) == ToEscaped(s);
    while i < |s|
      invariant 0 <= i <= |s|
      invariant ToEscaped(s) == r + ToEscaped(s[i..])
    {
      assert s[i..][1..] == s[i + 1..];
      assert r + (EscapeByte(s[i]) + ToEscaped(s[i + 1..])) == (r + EscapeByte(s[i])) + ToEscaped(s[i + 1..]);
      if Escaped(s[i]) {
        r := r + [PERCENT, HexDigit(s[i] / 16), HexDigit(s[i] % 16)];
      } else {
        r := r + [s[i]];
      }
      i := i + 1;
    }
    assert r + [] == r;
  }

  /** The byte that an escape at the head of `s` stands for; None when it is cut short or not hexadecimal. */
  function EscapeValue(s: Bytes): Option<Byte>
    requires s != []
  {
    if |s| < 3 || HexValue(s[1]).None? || HexValue(s[2]).None? then None
    else Some(16 * HexValue(s[1]).value + HexValue(s[2]).value)
  }

  function Prepend(b: Byte, rest: Option<Bytes>): Option<Bytes> {
    if rest.None? then None else Some([b] + rest.value)
  }

  /** None stands for the exception on a bad escape or on a byte that should have been escaped. */
  function FromEscaped(s: Bytes): Option<Bytes> {
    if s == [] then Some([])
    else if s[0] == PERCENT then
      var v := EscapeValue(s);
      if v.None? then None else Prepend(v.value, FromEscaped(s[3..]))
    else if Escaped(s[0]) then None
    else Prepend(s[0], FromEscaped(s[1..]))
  }

  /** `done` followed by what `s` stands for. */
  ghost function After(done: Bytes, s: Bytes): Option<Bytes> {
    var rest := FromEscaped(s); if rest.None? then None else Some(done + rest.value)
  }

  lemma AfterStep(done: Bytes, b: Byte, s: Bytes, t: Bytes)
    requires FromEscaped(s) == Prepend(b, FromEscaped(t))
    ensures After(done, s) == After(done + [b], t)
  {
    var rest := FromEscaped(t);
    assert rest.Some? ==> done + ([b] + rest.value) == (done + [b]) + rest.value;
  }

  method Unescape(s: Bytes) returns (r: Option<Bytes>)
    ensures r == FromEscaped(s)
  {
    var done, i := [], 0;
    assert s[0..] == s && (FromEscaped(s).Some? ==> done + FromEscaped(s).value == FromEscaped(s).value);
    while i < |s|
      invariant 0 <= i <= |s|
      invariant FromEscaped(s) == After(done, s[i..])
    {
      var tail := s[i..];
      if tail[0] == PERCENT {
        var v := EscapeValue(tail);
        if v.None? {
          return None;
        }
        AfterStep(done, v.value, tail, tail[3..]);
        assert tail[3..] == s[i + 3..];
        done, i := done + [v.value], i + 3;
      } else if Escaped(tail[0]) {
        return None;
      } else {
        AfterStep(done, tail[0], tail, tail[1..]);
        assert tail[1..] == s[i + 1..];
        done, i := done + [tail[0]], i + 1;
      }
    }
    assert done + [] == done;
    r := Some(done);
  }

  lemma EscapedByteReadsBack(b: Byte, t: Bytes)
    ensures FromEscaped(EscapeByte(b) + t) == Prepend(b, FromEscaped(t))
  {
    var e := EscapeByte(b);
    if Escaped(b) {
      assert (e + t)[3..] == t && (e + t)[1] == e[1] && (e + t)[2] == e[2];
      assert HexValue(HexDigit(b / 16)) == Some(b / 16) && HexValue(HexDigit(b % 16)) == Some(b % 16);
    } else {
      assert (e + t)[1..] == t;
    }
  }

  /** Unescaping undoes escaping on all byte strings. */
  lemma {:induction false} EscapeReadsBack(s: Bytes)
    ensures FromEscaped(ToEscaped(s)) == Some(s)
  {
    if s == [] {
    } else {
      EscapeReadsBack(s[1..]);
      EscapedByteReadsBack(s[0], ToEscaped(s[1..]));
      assert [s[0]] + s[1..] == s;
    }
  }

  // Names

  function FirstSlash(s: Bytes): (k: nat)
    ensures k <= |s| && (k < |s| ==> s[k] == SLASH) && SLASH !in s[..k]
  {
    if s == [] || s[0] == SLASH then 0
    else
      var k := 1 + FirstSlash(s[1..]);
      assert s[..k] == [s[0]] + s[1..][..k - 1];
      k
  }

  function Cons(c: Bytes, rest: Option<Name>): Option<Name> {
    if rest.None? then None else Some([c] + rest.value)
  }

  /** The non-empty pieces between slashes, unescaped. */
  function PathComponents(s: Bytes): Option<Name>
    decreases |s|
  {
    if s == [] then Some([])
    else if s[0] == SLASH then PathComponents(s[1..])
    else
      var k := FirstSlash(s);
      var c := FromEscaped(s[..k]);
      if c.None? then None else Cons(c.value, PathComponents(s[k..]))
  }

  function Lower(b: Byte): Byte {
    if 65 <= b <= 90 then b + 32 else b
  }

  /** The scheme is "ndn:" in any case. */
  predicate NdnScheme(s: Bytes) {
    |s| == 4 && Lower(s[0]) == 110 && Lower(s[1]) == 100 && Lower(s[2]) == 110 && s[3] == COLON
  }

  /** The part of a URI after scheme and authority; None stands for an exception. */
  function Path(uri: Bytes): Option<Bytes> {
    var f := FirstSlash(uri);
    if f == |uri| || (f > 0 && !NdnScheme(uri[..f])) then None
    else
      var s := uri[f..];
      if |s| > 1 && s[1] == SLASH then
        var a := 2 + FirstSlash(s[2..]);
        if a == |s| then None else Some(s[a..])
      else Some(s)
  }

  function NameOf(uri: Bytes): Option<Name> {
    var p := Path(uri); if p.None? then None else PathComponents(p.value)
  }

  method FindSlash(s: Bytes, start: nat) returns (i: nat)
    requires start <= |s|
    ensures i == start + FirstSlash(s[start..])
  {
    i := start;
    while i < |s| && s[i] != SLASH
      invariant start <= i <= |s|
      invariant start + FirstSlash(s[start..]) == i + FirstSlash(s[i..])
    {
      assert s[i..][1..] == s[i + 1..];
      i := i + 1;
    }
  }

  /** `done` followed by the components of `s`. */
  ghost function Then(done: Name, s: Bytes): Option<Name> {
    var rest := PathComponents(s); if rest.None? then None else Some(done + rest.value)
  }

  lemma ThenStep(done: Name, c: Bytes, s: Bytes, t: Bytes)
    requires PathComponents(s) == Cons(c, PathComponents(t))
    ensures Then(done, s) == Then(done + [c], t)
  {
    var rest := PathComponents(t);
    assert rest.Some? ==> done + ([c] + rest.value) == (done + [c]) + rest.value;
  }

  method SkipSlashes(s: Bytes, start: nat) returns (i: nat)
    requires start <= |s|
    ensures start <= i <= |s| && (i < |s| ==> s[i] != SLASH)
    ensures PathComponents(s[i..]) == PathComponents(s[start..])
  {
    i := start;
    while i < |s| && s[i] == SLASH
      invariant start <= i <= |s|
      invariant PathComponents(s[i..]) == PathComponents(s[start..])
    {
      assert s[i..][1..] == s[i + 1..];
      i := i + 1;
    }
  }

  method AppendComponents(s: Bytes) returns (r: Option<Name>)
    ensures r == PathComponents(s)
  {
    var done, i := [], 0;
    assert s[0..] == s && (PathComponents(s).Some? ==> done + PathComponents(s).value == PathComponents(s).value);
    while i < |s|
      invariant 0 <= i <= |s|
      invariant PathComponents(s) == Then(done, s[i..])
    {
      var j := SkipSlashes(s, i);
      if j == |s| {
        i := j;
        break;
      }
      var k := FindSlash(s, j);
      var tail := s[j..];
      assert tail[..k - j] == s[j..k] && tail[k - j..] == s[k..];
      var c := Unescape(s[j..k]);
      if c.None? {
        return None;
      }
      ThenStep(done, c.value, tail, s[k..]);
      done, i := done + [c.value], k;
    }
    assert done + [] == done;
    r := Some(done);
  }

  method NameFromUri(uri: Bytes) returns (r: Option<Name>)
    ensures r == NameOf(uri)
  {
    assert uri[0..] == uri;
    var firstSlash := FindSlash(uri, 0);
    if firstSlash == |uri| {
      return None;
    }
    if firstSlash != 0 && !NdnScheme(uri[..firstSlash]) {
      return None;
    }
    var i := firstSlash;
    ghost var s := uri[firstSlash..];
    if i + 1 != |uri| && uri[i + 1] == SLASH {
      assert s[2..] == uri[i + 2..];
      i := FindSlash(uri, i + 2);
      assert s[i - firstSlash..] == uri[i..];
    }
    if i == |uri| {
      return None;
    }
    r := AppendComponents(uri[i..]);
  }

  function Joined(name: Name): Bytes {
    if name == [] then [] else [SLASH] + ToEscaped(name[0]) + Joined(name[1..])
  }

  function ToUri(name: Name): Bytes {
    if name == [] then [SLASH] else Joined(name)
  }

  lemma JoinedFrom(name: Name, i: nat)
    requires i < |name|
    ensures Joined(name[i..]) == [SLASH] + ToEscaped(name[i]) + Joined(name[i + 1..])
  {
    SuffixOfSuffix(name, i, 1);
  }

  method UriFromName(name: Name) returns (r: Bytes)
    ensures r == ToUri(name)
  {
    r := [];
    var i := 0;
    assert name[0..] == name && [] + Joined(name) == Joined(name);
    while i < |name|
      invariant 0 <= i <= |name|
      invariant Joined(name) == r + Joined(name[i..])
    {
      var e := Escape(name[i]);
      JoinedFrom(name, i);
      ConcatAssociative(r, [SLASH] + e, Joined(name[i + 1..]));
      ConcatAssociative(r, [SLASH], e);
      r := r + [SLASH] + e;
      i := i + 1;
    }
    assert r + [] == r;
    if |name| == 0 {
      r := r + [SLASH];
    }
  }

  /** Every component is non-empty and has no slash. */
  predicate Plain(name: Name) {
    forall c | c in name :: c != [] && SLASH !in c
  }

  lemma {:induction false} EscapedSlash(c: Bytes)
    ensures SLASH in ToEscaped(c) <==> SLASH in c
    ensures c != [] ==> ToEscaped(c) != []
  {
    if c == [] {
    } else {
      EscapedSlash(c[1..]);
      assert c == [c[0]] + c[1..];
      assert SLASH in EscapeByte(c[0]) <==> c[0] == SLASH;
    }
  }

  lemma {:induction false} FirstSlashAt(s: Bytes, t: Bytes)
    requires SLASH !in s && (t == [] || t[0] == SLASH)
    ensures FirstSlash(s + t) == |s|
  {
    if s == [] {
      assert s + t == t;
    } else {
      assert (s + t)[1..] == s[1..] + t;
      FirstSlashAt(s[1..], t);
    }
  }

  lemma {:induction false} JoinedReadsBack(name: Name)
    requires Plain(name)
    ensures PathComponents(Joined(name)) == Some(name)
    decreases |name|
  {
    if name == [] {
    } else {
      assert name[0] in name && forall c | c in name[1..] :: c in name;
      JoinedReadsBack(name[1..]);
      OneComponent(name[0], Joined(name[1..]));
      assert [name[0]] + name[1..] == name;
    }
  }

  lemma OneComponent(c: Bytes, rest: Bytes)
    requires c != [] && SLASH !in c && (rest == [] || rest[0] == SLASH)
    ensures PathComponents([SLASH] + ToEscaped(c) + rest) == Cons(c, PathComponents(rest))
  {
    var e := ToEscaped(c);
    assert ([SLASH] + e + rest)[1..] == e + rest;
    EscapedSlash(c);
    EscapeReadsBack(c);
    FirstSlashAt(e, rest);
    assert (e + rest)[..|e|] == e && (e + rest)[|e|..] == rest;
    assert (e + rest)[0] == e[0];
    assert e[0] in e;
  }

  /** Every escape stands for a byte that has to be escaped. */
  predicate Canonical(s: Bytes) {
    s == [] ||
    if s[0] == PERCENT then EscapeValue(s).Some? && Escaped(EscapeValue(s).value) && Canonical(s[3..])
    else Canonical(s[1..])
  }

  lemma CanonicalByte(b: Byte, rest: Bytes)
    requires Canonical(rest)
    ensures Canonical(EscapeByte(b) + rest)
  {
    var e := EscapeByte(b);
    if Escaped(b) {
      assert (e + rest)[3..] == rest && (e + rest)[1] == e[1] && (e + rest)[2] == e[2];
    } else {
      assert (e + rest)[1..] == rest;
    }
  }

  lemma {:induction false} CanonicalEscape(c: Bytes, t: Bytes)
    requires Canonical(t)
    ensures Canonical(ToEscaped(c) + t)
  {
    if c == [] {
      assert ToEscaped(c) + t == t;
    } else {
      CanonicalEscape(c[1..], t);
      CanonicalByte(c[0], ToEscaped(c[1..]) + t);
      ConcatAssociative(EscapeByte(c[0]), ToEscaped(c[1..]), t);
    }
  }

  lemma {:induction false} CanonicalJoined(name: Name)
    ensures Canonical(Joined(name))
  {
    if name == [] {
    } else {
      CanonicalJoined(name[1..]);
      var rest := ToEscaped(name[0]) + Joined(name[1..]);
      CanonicalEscape(name[0], Joined(name[1..]));
      assert Joined(name) == [SLASH] + rest && Joined(name)[1..] == rest;
    }
  }

  /** Cutting canonical text at its first slash leaves two canonical texts. */
  lemma {:induction false} CanonicalCut(s: Bytes)
    requires Canonical(s)
    ensures Canonical(s[..FirstSlash(s)]) && Canonical(s[FirstSlash(s)..])
    decreases |s|
  {
    var k := FirstSlash(s);
    if s == [] || s[0] == SLASH {
      assert s[0..] == s && s[..0] == [];
    } else if s[0] == PERCENT {
      var t := s[3..];
      assert s[1..][1..] == s[2..] && s[2..][1..] == t && k == 3 + FirstSlash(t);
      CanonicalCut(t);
      assert s[..k][3..] == t[..k - 3] && s[k..] == t[k - 3..];
    } else {
      var t := s[1..];
      CanonicalCut(t);
      assert s[..k][1..] == t[..k - 1] && s[k..] == t[k - 1..];
    }
  }

  /** Canonical text without a slash stands for bytes without a slash. */
  lemma {:induction false} CanonicalMeans(s: Bytes)
    requires Canonical(s) && SLASH !in s && FromEscaped(s).Some?
    ensures SLASH !in FromEscaped(s).value && (s != [] ==> FromEscaped(s).value != [])
    decreases |s|
  {
    if s == [] {
    } else {
      var t := if s[0] == PERCENT then s[3..] else s[1..];
      CanonicalMeans(t);
    }
  }

  lemma {:induction false} ParsedIsPlain(s: Bytes)
    requires Canonical(s) && PathComponents(s).Some?
    ensures Plain(PathComponents(s).value)
    decreases |s|
  {
    if s == [] {
    } else {
      if s[0] == SLASH {
        ParsedIsPlain(s[1..]);
      } else {
        var k := FirstSlash(s);
        CanonicalCut(s);
        CanonicalMeans(s[..k]);
        ParsedIsPlain(s[k..]);
      }
    }
  }

  lemma PathIsCanonical(uri: Bytes)
    requires Canonical(uri) && Path(uri).Some?
    ensures Canonical(Path(uri).value)
  {
    CanonicalCut(uri);
    var s := uri[FirstSlash(uri)..];
    if |s| > 1 && s[1] == SLASH {
      assert s[1..][1..] == s[2..];
      CanonicalCut(s[2..]);
      assert s[2..][FirstSlash(s[2..])..] == s[2 + FirstSlash(s[2..])..];
    }
  }

  lemma PlainPath(name: Name)
    requires Plain(name)
    ensures Path(ToUri(name)) == Some(ToUri(name))
  {
    var u := ToUri(name);
    assert u[0..] == u;
    if name != [] {
      assert name[0] in name;
      EscapedSlash(name[0]);
      var e := ToEscaped(name[0]);
      assert u[1] == e[0] && e[0] in e;
    }
  }

  /** A name comes back from its URI exactly when its components are non-empty and free of slashes. */
  lemma UriReadsBack(name: Name)
    ensures NameOf(ToUri(name)) == Some(name) <==> Plain(name)
  {
    var u := ToUri(name);
    if Plain(name) {
      PlainPath(name);
      if name == [] {
        assert u[1..] == [] && PathComponents(u) == PathComponents(u[1..]);
      } else {
        JoinedReadsBack(name);
      }
    } else if NameOf(u).Some? {
      CanonicalJoined(name);
      PathIsCanonical(u);
      ParsedIsPlain(Path(u).value);
    }
  }

  /** The name of one component "/" does not come back. */
  lemma SlashIsLost()
    ensures NameOf(ToUri([[SLASH]])) != Some([[SLASH]])
  {
    UriReadsBack([[SLASH]]);
    assert SLASH in [SLASH] && !Plain([[SLASH]]);
  }

  // Scheme and authority

  lemma {:induction false} FirstSlashBehind(h: Bytes, rest: Bytes)
    requires 47 !in h
    ensures FirstSlash(h + [47] + rest) == |h|
  {
    assert h + [47] + rest == h + ([47] + rest);
    FirstSlashAt(h, [47] + rest);
  }

  lemma UriStarts(name: Name)
    ensures ToUri(name) != [] && ToUri(name)[0] == 47 && ToUri(name) == [47] + ToUri(name)[1..]
  {
  }

  /** A URI path gives its name, also behind an authority. */
  lemma PathGivesName(name: Name)
    requires Plain(name)
    ensures PathComponents(ToUri(name)) == Some(name)
  {
    PlainPath(name);
    UriReadsBack(name);
  }

  /** The scheme ndn: in any case changes nothing. */
  lemma SchemeIsDropped(scheme: Bytes, name: Name)
    requires |scheme| == 4 && scheme[0] in {78, 110} && scheme[1] in {68, 100} && scheme[2] in {78, 110}
    requires scheme[3] == 58 && Plain(name)
    ensures NameOf(scheme + ToUri(name)) == Some(name)
  {
    var u := ToUri(name);
    UriStarts(name);
    SchemeIsCut(scheme, u[1..]);
    assert scheme + [47] + u[1..] == scheme + u;
    PlainPath(name);
    PathGivesName(name);
  }

  lemma SchemeIsCut(scheme: Bytes, rest: Bytes)
    requires |scheme| == 4 && scheme[0] in {78, 110} && scheme[1] in {68, 100} && scheme[2] in {78, 110}
    requires scheme[3] == 58
    ensures Path(scheme + [47] + rest) == Path([47] + rest)
  {
    var uri := scheme + [47] + rest;
    FirstSlashBehind(scheme, rest);
    FirstSlashBehind([], rest);
    assert uri[..4] == scheme && uri[4..] == [47] + rest == [] + [47] + rest;
  }

  lemma AuthorityIsCut(host: Bytes, rest: Bytes)
    requires 47 !in host
    ensures Path([47, 47] + host + [47] + rest) == Some([47] + rest)
  {
    var uri := [47, 47] + host + [47] + rest;
    assert uri == [] + [47] + ([47] + host + [47] + rest) && uri[2..] == host + [47] + rest;
    FirstSlashBehind([], [47] + host + [47] + rest);
    FirstSlashBehind(host, rest);
    assert uri[0..] == uri && uri[2 + |host|..] == [47] + rest;
  }

  lemma AuthorityText(host: Bytes, name: Name)
    ensures [47, 47] + host + ToUri(name) == [47, 47] + host + [47] + ToUri(name)[1..]
    ensures [47, 47] + host + ToUri(name) == [47] + ([47] + host + ToUri(name))
  {
    UriStarts(name);
    ConcatAssociative([47, 47] + host, [47], ToUri(name)[1..]);
    assert [47, 47] + host == [47] + ([47] + host);
    ConcatAssociative([47], [47] + host, ToUri(name));
  }

  /** An authority between two slashes and the next one is skipped. */
  lemma AuthorityIsDropped(host: Bytes, name: Name)
    requires 47 !in host && Plain(name)
    ensures NameOf([47, 47] + host + ToUri(name)) == Some(name)
  {
    AuthorityText(host, name);
    UriStarts(name);
    PathGivesName(name);
    AuthorityIsCut(host, ToUri(name)[1..]);
  }

  /** So is an authority behind the scheme. */
  lemma SchemeAndAuthorityAreDropped(scheme: Bytes, host: Bytes, name: Name)
    requires |scheme| == 4 && scheme[0] in {78, 110} && scheme[1] in {68, 100} && scheme[2] in {78, 110}
    requires scheme[3] == 58 && 47 !in host && Plain(name)
    ensures NameOf(scheme + ([47, 47] + host + ToUri(name))) == Some(name)
  {
    var rest := [47] + host + ToUri(name);
    AuthorityText(host, name);
    AuthorityIsDropped(host, name);
    SchemeIsCut(scheme, rest);
    ConcatAssociative(scheme, [47], rest);
  }

  /** Anything else in front of the first slash is refused, and so is a text without a slash. */
  lemma OtherSchemesFail(front: Bytes, rest: Bytes)
    requires 47 !in front && front != []
    requires !(&& |front| == 4 && front[0] in {78, 110} && front[1] in {68, 100}
               && front[2] in {78, 110} && front[3] == 58)
    ensures NameOf(front + [47] + rest) == None
    ensures NameOf(front) == None && NameOf([]) == None
  {
    FirstSlashBehind(front, rest);
    assert (front + [47] + rest)[..|front|] == front;
    FirstSlashAt(front, []);
    assert front + [] == front;
  }

  // The table

  /** The bytes that stand for themselves: letters, digits and these marks. */
  lemma UnescapedBytes(b: Byte)
    ensures ToEscaped([b]) == [b] <==>
            || 65 <= b <= 90 || 97 <= b <= 122 || 48 <= b <= 57
            || b in {33, 35, 36, 38, 39, 40, 41, 42, 43, 44, 45, 46, 47, 58, 59, 61, 63, 64, 91, 93, 95, 126}
  {
    assert [b][1..] == [] && ToEscaped([b]) == EscapeByte(b) + ToEscaped([]) == EscapeByte(b);
  }

  /** "a b~" is written as "a%20b~", the byte 255 as "%FF", and the name of the component a as "/a". */
  lemma EscapeSample()
    ensures ToEscaped([97, 32, 98, 126]) == [97, 37, 50, 48, 98, 126]
    ensures ToEscaped([255]) == [37, 70, 70] && ToUri([[97]]) == [47, 97]
  {
    assert [255][1..] == [] && EscapeByte(255) == [37, 70, 70];
    assert [[97]][1..] == [] && [97][1..] == [] && ToEscaped([97]) == EscapeByte(97) + [] == [97];
    assert Joined([[97]]) == [47] + ToEscaped([97]) + Joined([]) == [47, 97];
    assert [97, 32, 98, 126][1..] == [32, 98, 126] && [32, 98, 126][1..] == [98, 126] && [98, 126][1..] == [126];
    assert [126][1..] == [];
  }

  /** Escapes are read in both cases; bad, short and missing ones are refused. */
  lemma UnescapeSamples()
    ensures FromEscaped([37, 50, 102]) == Some([47]) && FromEscaped([37, 50, 70]) == Some([47])
    ensures FromEscaped([37, 103, 48]) == None && FromEscaped([37, 52]) == None && FromEscaped([32]) == None
  {
    assert [37, 50, 102][3..] == [] && [37, 50, 70][3..] == [] && [47] + [] == [47];
    assert EscapeValue([37, 50, 102]) == EscapeValue([37, 50, 70]) == Some(47);
    assert EscapeValue([37, 103, 48]) == None && EscapeValue([37, 52]) == None;
  }

  /** Further slashes change nothing, and the empty name is one slash. */
  lemma SlashesAreSkipped(s: Bytes)
    ensures PathComponents([47] + s) == PathComponents(s)
    ensures ToUri([]) == [47]
  {
    assert ([47] + s)[1..] == s;
  }
}
