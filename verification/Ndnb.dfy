/** The ndnb wire format: block headers, names and timestamps. */
module Ndnb {
  import opened Octets
  import opened Sequences

  const CLOSE: Byte := 0
  const DTAG: nat := 2
  const BLOB: nat := 5
  const DTAG_NAME: nat := 14
  const DTAG_COMPONENT: nat := 15
  const SIZE_LIMIT: nat := 0x1_0000_0000_0000_0000

  // Block headers

  /** The digits of a number in base 128, the most significant first. */
  function Sevens(v: nat): Bytes {
    if v == 0 then [] else Sevens(v / 128) + [v % 128]
  }

  /** The last byte has the high bit, four bits of the value and the type; the rest of the value stands before it. */
  function BlockHeader(val: nat, tt: nat): Bytes
    requires tt < 8
  {
    Sevens(val / 16) + [128 + 8 * (val % 16) + tt]
  }

  lemma {:induction false} SevensLength(v: nat, n: nat)
    requires v < Power(128, n)
    ensures |Sevens(v)| <= n
  {
    if v == 0 {
    } else {
      SevensLength(v / 128, n - 1);
    }
  }

  lemma HeaderFits(val: nat)
    requires val < SIZE_LIMIT
    ensures |Sevens(val / 16)| <= 9
  {
    assert Power(128, 1) == 128 && Power(128, 2) == 0x4000;
    assert Power(128, 3) == 0x20_0000;
    assert Power(128, 4) == 0x1000_0000;
    assert Power(128, 5) == 0x8_0000_0000;
    assert Power(128, 6) == 0x400_0000_0000;
    assert Power(128, 7) == 0x2_0000_0000_0000;
    assert Power(128, 8) == 0x100_0000_0000_0000;
    assert Power(128, 9) == 0x8000_0000_0000_0000;
    SevensLength(val / 16, 9);
  }

  /** Fills the seventeen-byte buffer from its end. */
  method AppendBlockHeader(os: Bytes, val: nat, tt: nat) returns (r: Bytes)
    requires val < SIZE_LIMIT && tt < 8
    ensures r == os + BlockHeader(val, tt)
  {
    var buf := new Byte[17];
    var p, v: nat := 16, val / 16;
    buf[16] := 128 + 8 * (val % 16) + tt;
    HeaderFits(val);
    while v != 0
      invariant 0 <= p <= 16
      invariant BlockHeader(val, tt) == Sevens(v) + buf[p..]
      invariant |Sevens(v)| <= p
    {
      ghost var before := buf[p..];
      assert Sevens(v) + before == Sevens(v / 128) + ([v % 128] + before);
      p := p - 1;
      buf[p] := v % 128;
      assert buf[p..] == [v % 128] + before;
      v := v / 128;
    }
    r := os + buf[p..];
  }

  /** Value, type and end of the header at `i`, on top of the digits read before; None when the input ends. */
  function ReadBlock(s: Bytes, i: nat, acc: nat): (r: Option<(nat, nat, nat)>)
    ensures r.Some? ==> i < r.value.2 <= |s|
    decreases |s| - i
  {
    if i >= |s| then None
    else if s[i] < 128 then ReadBlock(s, i + 1, 128 * acc + s[i])
    else Some((16 * acc + (s[i] - 128) / 8, s[i] % 8, i + 1))
  }

  lemma {:induction false} ReadSevens(s: Bytes, i: nat, v: nat)
    requires At(s, i, Sevens(v))
    ensures ReadBlock(s, i, 0) == ReadBlock(s, i + |Sevens(v)|, v)
  {
    if v == 0 {
    } else {
      AtConcat(s, i, Sevens(v / 128), [v % 128]);
      ReadSevens(s, i, v / 128);
      var j := i + |Sevens(v / 128)|;
      assert s[j] == s[j..j + 1][0] == v % 128;
    }
  }

  /** A header can be read back wherever it stands, so headers are prefix-free and no two are the same. */
  lemma HeaderReadsBack(s: Bytes, i: nat, val: nat, tt: nat)
    requires tt < 8 && At(s, i, BlockHeader(val, tt))
    ensures ReadBlock(s, i, 0) == Some((val, tt, i + |BlockHeader(val, tt)|))
  {
    var last := 128 + 8 * (val % 16) + tt;
    AtConcat(s, i, Sevens(val / 16), [last]);
    ReadSevens(s, i, val / 16);
    var j := i + |Sevens(val / 16)|;
    assert s[j] == s[j..j + 1][0] == last;
  }

  lemma {:induction false} SevensStart(v: nat)
    requires v != 0
    ensures Sevens(v)[0] != 0
  {
    if v / 128 == 0 {
    } else {
      SevensStart(v / 128);
    }
  }

  lemma HeaderIsNoCloser(val: nat, tt: nat)
    requires tt < 8
    ensures BlockHeader(val, tt)[0] != CLOSE
  {
    if val / 16 != 0 {
      SevensStart(val / 16);
    }
  }

  lemma HeadersArePrefixFree(a: nat, t: nat, b: nat, u: nat)
    requires t < 8 && u < 8 && BlockHeader(a, t) <= BlockHeader(b, u)
    ensures a == b && t == u
  {
    var s := BlockHeader(b, u);
    assert s[0..|s|] == s;
    HeaderReadsBack(s, 0, a, t);
    HeaderReadsBack(s, 0, b, u);
  }

  // Names

  type Name = seq<Bytes>

  function TaggedBlob(tag: nat, data: Bytes): Bytes {
    BlockHeader(tag, DTAG) + (if data == [] then [] else BlockHeader(|data|, BLOB) + data) + [CLOSE]
  }

  function Components(name: Name): Bytes {
    if name == [] then [] else TaggedBlob(DTAG_COMPONENT, name[0]) + Components(name[1..])
  }

  function NameBlock(name: Name): Bytes {
    BlockHeader(DTAG_NAME, DTAG) + Components(name) + [CLOSE]
  }

  method AppendTaggedBlob(os: Bytes, tag: nat, data: Bytes) returns (r: Bytes)
    requires tag < SIZE_LIMIT && |data| < SIZE_LIMIT
    ensures r == os + TaggedBlob(tag, data)
  {
    r := AppendBlockHeader(os, tag, DTAG);
    if |data| > 0 {
      r := AppendBlockHeader(r, |data|, BLOB);
      r := r + data;
    }
    r := r + [CLOSE];
  }

  method AppendComponents(os: Bytes, name: Name) returns (r: Bytes)
    requires forall c | c in name :: |c| < SIZE_LIMIT
    ensures r == os + Components(name)
  {
    r := os;
    var i := 0;
    while i < |name|
      invariant 0 <= i <= |name|
      invariant r == os + Components(name[..i])
    {
      assert name[i] in name;
      ghost var done := Components(name[..i]);
      r := AppendTaggedBlob(r, DTAG_COMPONENT, name[i]);
      ComponentsUpTo(name, i);
      ConcatAssociative(os, done, TaggedBlob(DTAG_COMPONENT, name[i]));
      i := i + 1;
    }
    assert name[..i] == name;
  }

  method AppendName(os: Bytes, name: Name) returns (r: Bytes)
    requires forall c | c in name :: |c| < SIZE_LIMIT
    ensures r == os + NameBlock(name)
  {
    ghost var h, parts := BlockHeader(DTAG_NAME, DTAG), Components(name);
    r := AppendBlockHeader(os, DTAG_NAME, DTAG);
    r := AppendComponents(r, name);
    r := r + [CLOSE];
    ConcatAssociative(os, h, parts);
    ConcatAssociative(os, h + parts, [CLOSE]);
  }

  lemma ComponentsUpTo(name: Name, i: nat)
    requires i < |name|
    ensures Components(name[..i + 1]) == Components(name[..i]) + TaggedBlob(DTAG_COMPONENT, name[i])
  {
    assert name[..i + 1] == name[..i] + [name[i]];
    ComponentsAppend(name[..i], name[i]);
  }

  lemma {:induction false} ComponentsAppend(name: Name, c: Bytes)
    ensures Components(name + [c]) == Components(name) + TaggedBlob(DTAG_COMPONENT, c)
  {
    if name == [] {
      assert name + [c] == [c] && [c][1..] == [];
    } else {
      assert (name + [c])[1..] == name[1..] + [c];
      ComponentsAppend(name[1..], c);
    }
  }

  /** A component and its end. */
  function ReadComponent(s: Bytes, i: nat): (r: Option<(Bytes, nat)>)
    ensures r.Some? ==> i < r.value.1 <= |s|
  {
    var h := ReadBlock(s, i, 0);
    if h.None? || h.value.0 != DTAG_COMPONENT || h.value.1 != DTAG || h.value.2 >= |s| then None
    else if s[h.value.2] == CLOSE then Some(([], h.value.2 + 1))
    else
      var b := ReadBlock(s, h.value.2, 0);
      if b.None? || b.value.1 != BLOB then None
      else
        var end := b.value.2 + b.value.0;
        if end >= |s| || s[end] != CLOSE then None else Some((s[b.value.2..end], end + 1))
  }

  lemma ComponentReadsBack(s: Bytes, i: nat, c: Bytes)
    requires At(s, i, TaggedBlob(DTAG_COMPONENT, c))
    ensures ReadComponent(s, i) == Some((c, i + |TaggedBlob(DTAG_COMPONENT, c)|))
    ensures s[i] != CLOSE
  {
    var h, b := BlockHeader(DTAG_COMPONENT, DTAG), BlockHeader(|c|, BLOB);
    var inside := if c == [] then [] else b + c;
    AtConcat(s, i, h + inside, [CLOSE]);
    AtConcat(s, i, h, inside);
    HeaderReadsBack(s, i, DTAG_COMPONENT, DTAG);
    HeaderIsNoCloser(DTAG_COMPONENT, DTAG);
    assert s[i] == s[i..i + |h|][0] == h[0];
    var j := i + |h|;
    var e := j + |inside|;
    assert s[e] == s[e..e + 1][0] == CLOSE;
    if c != [] {
      AtConcat(s, j, b, c);
      HeaderReadsBack(s, j, |c|, BLOB);
      HeaderIsNoCloser(|c|, BLOB);
      assert s[j] == s[j..j + |b|][0] == b[0];
    }
  }

  lemma NextComponent(s: Bytes, i: nat, name: Name) returns (n: nat)
    requires name != [] && At(s, i, Components(name) + [CLOSE])
    ensures n + |Components(name[1..])| == |Components(name)|
    ensures i < |s| && s[i] != CLOSE && ReadComponent(s, i) == Some((name[0], i + n))
    ensures At(s, i + n, Components(name[1..]) + [CLOSE])
  {
    var first, rest := TaggedBlob(DTAG_COMPONENT, name[0]), Components(name[1..]);
    assert Components(name) + [CLOSE] == first + (rest + [CLOSE]);
    AtConcat(s, i, first, rest + [CLOSE]);
    ComponentReadsBack(s, i, name[0]);
    n := |first|;
  }

  lemma StartsWithCloser(s: Bytes, i: nat)
    requires At(s, i, Components([]) + [CLOSE])
    ensures i < |s| && s[i] == CLOSE
  {
    assert Components([]) + [CLOSE] == [CLOSE];
    assert s[i] == s[i..i + 1][0];
  }

  lemma BothAreEmpty(s: Bytes, i: nat, a: Name, b: Name)
    requires At(s, i, Components(a) + [CLOSE]) && At(s, i, Components(b) + [CLOSE])
    requires a == [] || b == []
    ensures a == b
  {
    StartsWithCloser(s, i);
    if a != [] {
      var _ := NextComponent(s, i, a);
    } else if b != [] {
      var _ := NextComponent(s, i, b);
    }
  }

  /** Where two lists of components stand at one place, each with its closer, they are the same list. */
  lemma {:induction false} ComponentsAreUnique(s: Bytes, i: nat, a: Name, b: Name)
    requires At(s, i, Components(a) + [CLOSE]) && At(s, i, Components(b) + [CLOSE])
    ensures a == b
    decreases |a|
  {
    if a == [] || b == [] {
      BothAreEmpty(s, i, a, b);
    } else {
      var n := NextComponent(s, i, a);
      var m := NextComponent(s, i, b);
      ComponentsAreUnique(s, i + n, a[1..], b[1..]);
      assert a == [a[0]] + a[1..] && b == [b[0]] + b[1..];
    }
  }

  /** Whatever follows, bytes start with the encoding of at most one name. */
  lemma NamesAreUnique(s: Bytes, i: nat, a: Name, b: Name)
    requires At(s, i, NameBlock(a)) && At(s, i, NameBlock(b))
    ensures a == b
  {
    var h := BlockHeader(DTAG_NAME, DTAG);
    assert NameBlock(a) == h + (Components(a) + [CLOSE]) && NameBlock(b) == h + (Components(b) + [CLOSE]);
    AtConcat(s, i, h, Components(a) + [CLOSE]);
    AtConcat(s, i, h, Components(b) + [CLOSE]);
    ComponentsAreUnique(s, i + |h|, a, b);
  }

  /** No name's encoding starts another's. */
  lemma NamesArePrefixFree(a: Name, b: Name)
    requires NameBlock(a) <= NameBlock(b)
    ensures a == b
  {
    var s := NameBlock(b);
    assert s[0..|s|] == s;
    NamesAreUnique(s, 0, a, b);
  }

  // Timestamps

  /** The fraction of a second in 4096ths, as the source rounds it. */
  function Fraction(nanos: nat): nat {
    (nanos / 5 * 8 + 195312) / 390625
  }

  /** The fraction is within half a tick, and a little, of the true one. */
  lemma FractionIsClose(nanos: nat)
    requires nanos < 1_000_000_000
    ensures -500_021_760 <= 1_000_000_000 * Fraction(nanos) - 4096 * nanos <= 500_000_000
    ensures Fraction(nanos) <= 4096
  {
    var q := nanos / 5;
    var f := Fraction(nanos);
    assert 5 * q <= nanos < 5 * q + 5;
    assert 390625 * f <= 8 * q + 195312 < 390625 * f + 390625;
  }

  /** The low byte of `v` shifted right by `n` bytes. */
  function ByteOf(v: nat, n: nat): Byte {
    if n == 0 then v % 256 else ByteOf(v / 256, n - 1)
  }

  /** The last `n` bytes of `v`. */
  function LowBytes(v: nat, n: nat): Bytes {
    if n == 0 then [] else LowBytes(v / 256, n - 1) + [v % 256]
  }

  /** Two bytes for the fraction and four bits of the seconds, up to five more for the rest of the seconds. */
  function Required(secs: nat): nat {
    2 + Digits(secs / 16, 5)
  }

  /** The number of base-256 digits, but at most `limit`. */
  function Digits(v: nat, limit: nat): nat {
    if limit == 0 || v == 0 then 0 else 1 + Digits(v / 256, limit - 1)
  }

  function TimeBytes(secs: nat, nanos: nat): Bytes {
    LowBytes(secs / 16, Required(secs) - 2) + LowBytes(secs % 16 * 4096 + Fraction(nanos), 2)
  }

  lemma {:induction false} ByteOfLow(v: nat, n: nat, i: nat)
    requires i < n
    ensures |LowBytes(v, n)| == n && LowBytes(v, n)[i] == ByteOf(v, n - 1 - i)
  {
    LowBytesLength(v, n);
    if i == n - 1 {
    } else {
      ByteOfLow(v / 256, n - 1, i);
      LowBytesLength(v / 256, n - 1);
    }
  }

  lemma {:induction false} LowBytesLength(v: nat, n: nat)
    ensures |LowBytes(v, n)| == n
  {
    if n == 0 {
    } else {
      LowBytesLength(v / 256, n - 1);
    }
  }

  /** Writes the last `n` bytes of `v`, the most significant first. */
  method PutBytes(os: Bytes, v: nat, n: nat) returns (r: Bytes)
    ensures r == os + LowBytes(v, n)
  {
    r := os;
    var i := 0;
    LowBytesLength(v, n);
    while i < n
      invariant 0 <= i <= n
      invariant r == os + LowBytes(v, n)[..i]
    {
      ByteOfLow(v, n, i);
      assert LowBytes(v, n)[..i + 1] == LowBytes(v, n)[..i] + [LowBytes(v, n)[i]];
      r := r + [ByteOf(v, n - 1 - i)];
      i := i + 1;
    }
    assert LowBytes(v, n)[..n] == LowBytes(v, n);
  }

  method AppendTimestampBlob(os: Bytes, secs: nat, nanos: nat) returns (r: Bytes)
    ensures r == os + BlockHeader(Required(secs), BLOB) + TimeBytes(secs, nanos)
  {
    var required: nat, ts: nat := 2, secs / 16;
    while required < 7 && ts != 0
      invariant 2 <= required <= 7
      invariant Required(secs) == required + Digits(ts, 7 - required)
    {
      required, ts := required + 1, ts / 256;
    }
    r := AppendBlockHeader(os, required, BLOB);
    r := PutBytes(r, secs / 16, required - 2);
    r := PutBytes(r, secs % 16 * 4096 + Fraction(nanos), 2);
  }

  lemma {:induction false} NumberOfConcat(s: Bytes, t: Bytes)
    ensures Number(s + t) == Number(s) * Power(256, |t|) + Number(t)
  {
    if t == [] {
      assert s + t == s;
    } else {
      var u := t[..|t| - 1];
      assert (s + t)[..|s + t| - 1] == s + u;
      NumberOfConcat(s, u);
      Shift(Number(s), Power(256, |u|), Number(u));
    }
  }

  lemma Shift(n: nat, p: nat, m: nat)
    ensures 256 * (n * p + m) == n * (256 * p) + 256 * m
  {
  }

  lemma {:induction false} NumberOfLowBytes(v: nat, n: nat)
    requires v < Power(256, n)
    ensures Number(LowBytes(v, n)) == v
  {
    if n == 0 {
    } else {
      NumberOfLowBytes(v / 256, n - 1);
      assert LowBytes(v, n)[..|LowBytes(v, n)| - 1] == LowBytes(v / 256, n - 1);
    }
  }

  lemma {:induction false} DigitsSuffice(v: nat, limit: nat)
    requires v < Power(256, limit)
    ensures v < Power(256, Digits(v, limit))
    ensures v != 0 ==> Digits(v, limit) > 0 && Power(256, Digits(v, limit) - 1) <= v
  {
    if v == 0 {
    } else {
      DigitsSuffice(v / 256, limit - 1);
    }
  }

  lemma FivePowers()
    ensures Power(256, 2) == 0x1_0000 && Power(256, 5) == 0x100_0000_0000
  {
    assert Power(256, 1) == 256 && Power(256, 3) == 0x100_0000 && Power(256, 4) == 0x1_0000_0000;
  }

  /** From this many nanoseconds on, the fraction is rounded up to a whole second. */
  const ROUNDED_UP: nat := 999_877_930

  lemma FractionIsWhole(nanos: nat)
    requires nanos < 1_000_000_000
    ensures Fraction(nanos) == 4096 <==> nanos >= ROUNDED_UP
  {
    var q := nanos / 5;
    assert 5 * q <= nanos < 5 * q + 5;
    assert q >= 199_975_586 <==> nanos >= ROUNDED_UP;
    FractionIsClose(nanos);
  }

  /** Below 2^44 seconds the blob, read as a number, is the time in 4096ths, unless a carry is lost. */
  lemma TimestampReads(secs: nat, nanos: nat)
    requires secs < 0x1000_0000_0000 && nanos < 1_000_000_000
    ensures Number(TimeBytes(secs, nanos)) ==
            secs * 4096 + Fraction(nanos) - if secs % 16 == 15 && nanos >= ROUNDED_UP then 65536 else 0
  {
    FractionIsWhole(nanos);
    FractionIsClose(nanos);
    TimeParts(secs, Fraction(nanos));
    assert secs == 16 * (secs / 16) + secs % 16;
  }

  /** A nanosecond short of sixteen seconds is written as zero. */
  lemma CarryCanBeLost()
    ensures Number(TimeBytes(15, 999_999_999)) == 0
  {
    FractionIsWhole(999_999_999);
    TimestampReads(15, 999_999_999);
  }

  lemma TimeParts(secs: nat, f: nat)
    requires secs < 0x1000_0000_0000 && f <= 4096
    ensures var low := secs % 16 * 4096 + f;
            Number(LowBytes(secs / 16, Required(secs) - 2) + LowBytes(low, 2))
            == secs / 16 * 65536 + if low == 65536 then 0 else low
  {
    var low := secs % 16 * 4096 + f;
    FivePowers();
    TwoBytes(low);
    HighBytes(secs);
    NumberOfConcat(LowBytes(secs / 16, Required(secs) - 2), LowBytes(low, 2));
  }

  lemma HighBytes(secs: nat)
    requires secs < 0x1000_0000_0000
    ensures Number(LowBytes(secs / 16, Required(secs) - 2)) == secs / 16
  {
    FivePowers();
    DigitsSuffice(secs / 16, 5);
    NumberOfLowBytes(secs / 16, Required(secs) - 2);
  }

  lemma TwoBytes(low: nat)
    requires low <= 65536
    ensures |LowBytes(low, 2)| == 2 && Number(LowBytes(low, 2)) == if low == 65536 then 0 else low
  {
    FivePowers();
    LowBytesLength(low, 2);
    if low < 65536 {
      NumberOfLowBytes(low, 2);
    } else {
      NumberOfLowBytes(0, 2);
      assert LowBytes(256, 1) == LowBytes(0, 1);
      assert LowBytes(65536, 2) == LowBytes(0, 2);
    }
  }

  /** The blob has two bytes, or its first byte is needed. */
  lemma TimestampIsShort(secs: nat, nanos: nat)
    requires secs < 0x1000_0000_0000
    ensures |TimeBytes(secs, nanos)| == Required(secs)
    ensures Required(secs) > 2 ==> Power(256, Required(secs) - 3) <= secs / 16
  {
    FivePowers();
    LowBytesLength(secs / 16, Required(secs) - 2);
    LowBytesLength(secs % 16 * 4096 + Fraction(nanos), 2);
    DigitsSuffice(secs / 16, 5);
  }

  // Samples

  lemma HeaderSamples()
    ensures BlockHeader(14, 2) == [0xF2] && BlockHeader(15, 2) == [0xFA] && BlockHeader(1, 5) == [0x8D]
    ensures BlockHeader(2, 5) == [0x95] && BlockHeader(1000, 5) == [62, 197]
  {
    assert Sevens(62) == Sevens(0) + [62] == [62];
  }

  /** The name of the one component "a". */
  lemma NameSample()
    ensures NameBlock([[97]]) == [0xF2, 0xFA, 0x8D, 97, 0x00, 0x00]
  {
    HeaderSamples();
    assert [[97]][1..] == [] && Components([[97]]) == TaggedBlob(DTAG_COMPONENT, [97]) + Components([]);
    assert TaggedBlob(DTAG_COMPONENT, [97]) == [0xFA, 0x8D, 97, 0x00];
  }

  const EMPTY_COMPONENT: Name := [[]]

  /** An empty component has no blob. */
  lemma EmptyComponentSample()
    ensures NameBlock(EMPTY_COMPONENT) == [0xF2, 0xFA, 0x00, 0x00]
  {
    HeaderSamples();
    assert EMPTY_COMPONENT[1..] == [];
    assert Components(EMPTY_COMPONENT) == TaggedBlob(DTAG_COMPONENT, []) + Components([]);
  }

  /** One and a half seconds. */
  lemma TimestampSample()
    ensures BlockHeader(Required(1), BLOB) + TimeBytes(1, 500_000_000) == [0x95, 0x18, 0x00]
  {
    HeaderSamples();
    assert Fraction(500_000_000) == 2048 && Required(1) == 2;
    assert LowBytes(6144, 2) == LowBytes(6144, 2)[..] == [0x18, 0x00] by {
      ByteOfLow(6144, 2, 0);
      ByteOfLow(6144, 2, 1);
    }
    assert LowBytes(0, 0) == [];
  }
}
