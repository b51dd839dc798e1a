/** DER trees as bytes: length octets, base-128 object identifiers, encoding and parsing. */
module Der {
  import opened Octets
  import opened Sequences

  const SEQUENCE: Byte := 48

  const INT_MIN: int := -0x8000_0000

  /** BOOLEAN, INTEGER, BIT STRING, OCTET STRING, NULL, OBJECT IDENTIFIER, PrintableString and GeneralizedTime. */
  predicate Primitive(tag: Byte) {
    1 <= tag <= 6 || tag == 19 || tag == 24
  }

  /** The `n` bytes read from `pos` on. */
  function Read(data: Bytes, pos: nat, n: nat): Bytes
    requires pos + n <= |data|
    decreases n
  {
    if n == 0 then [] else [data[pos]] + Read(data, pos + 1, n - 1)
  }

  lemma {:induction false} ReadIsSlice(data: Bytes, pos: nat, n: nat)
    requires pos + n <= |data|
    ensures Read(data, pos, n) == data[pos..pos + n]
    decreases n
  {
    if n == 0 {
    } else {
      ReadIsSlice(data, pos + 1, n - 1);
      assert data[pos..pos + n] == [data[pos]] + data[pos + 1..pos + n];
    }
  }

  /** `t` can be read from `pos` on. */
  predicate Holds(data: Bytes, pos: nat, t: Bytes) {
    pos + |t| <= |data| && Read(data, pos, |t|) == t
  }

  lemma HoldsConcat(data: Bytes, pos: nat, t: Bytes, u: Bytes)
    requires Holds(data, pos, t + u)
    ensures Holds(data, pos, t) && Holds(data, pos + |t|, u)
  {
    ReadIsSlice(data, pos, |t + u|);
    AtConcat(data, pos, t, u);
    ReadIsSlice(data, pos, |t|);
    ReadIsSlice(data, pos + |t|, |u|);
  }

  // Headers

  /** From 127 on the long form: the number of length octets, then the length. */
  function LengthOctets(size: nat): Bytes
    requires size <= INT_MAX
  {
    IntBytes(size);
    if size >= 127 then [128 + |BigEndian(size)|] + BigEndian(size) else [size]
  }

  function Header(tag: Byte, size: nat): Bytes
    requires size <= INT_MAX
  {
    [tag] + LengthOctets(size)
  }

  /** Fills the five-byte buffer from its end; None stands for the exception on a negative length. */
  method EncodeHeader(tag: Byte, size: int) returns (r: Option<Bytes>)
    requires size <= INT_MAX
    ensures r == if size < 0 then None else Some(Header(tag, size))
  {
    if size >= 127 {
      var buf := new Byte[5];
      var p, n, val: nat := 4, 0, size;
      IntBytes(size);
      while val != 0
        invariant 0 <= n <= 4 && p == 4 - n
        invariant BigEndian(size) == BigEndian(val) + buf[p + 1..]
        invariant |BigEndian(val)| + n <= 4
      {
        ghost var before := buf[p + 1..];
        assert BigEndian(val) + before == BigEndian(val / 256) + ([val % 256] + before);
        buf[p] := val % 256;
        assert buf[p..] == [val % 256] + before;
        p, n, val := p - 1, n + 1, val / 256;
      }
      buf[p] := 128 + n;
      assert buf[p..] == [128 + n] + BigEndian(size);
      r := Some([tag] + buf[p..]);
    } else if size >= 0 {
      r := Some([tag] + [size]);
    } else {
      r := None;
    }
  }

  /** Tag, length and the position behind the header; None when the input ends or the length is beyond an int. */
  function ReadHeader(data: Bytes, pos: nat): (r: Option<(Byte, nat, nat)>)
    ensures r.Some? ==> pos + 2 <= r.value.2 <= |data| && r.value.1 <= INT_MAX
  {
    if pos + 2 > |data| then None
    else if data[pos + 1] < 128 then Some((data[pos], data[pos + 1], pos + 2))
    else
      var n: nat := if data[pos + 1] == 128 then 1 else data[pos + 1] - 128;
      if pos + 2 + n > |data| then None
      else
        var size := Number(Read(data, pos + 2, n));
        if size > INT_MAX then None else Some((data[pos], size, pos + 2 + n))
  }

  method DecodeHeader(data: Bytes, pos: nat) returns (r: Option<(Byte, nat, nat)>)
    ensures r == ReadHeader(data, pos)
  {
    if pos + 2 > |data| {
      return None;
    }
    var sizeLen := data[pos + 1];
    if sizeLen < 128 {
      return Some((data[pos], sizeLen, pos + 2));
    }
    ghost var n: nat := if sizeLen == 128 then 1 else sizeLen - 128;
    var lenCount: int := sizeLen - 128;
    var size, i := 0, pos + 2;
    while i == pos + 2 || lenCount > 0
      invariant pos + 2 <= i <= |data| && i <= pos + 2 + n
      invariant lenCount == sizeLen - 128 - (i - pos - 2)
      invariant size == Number(data[pos + 2..i])
      decreases |data| - i
    {
      if i == |data| {
        return None;
      }
      assert data[pos + 2..i + 1][..i - pos - 2] == data[pos + 2..i];
      size, i, lenCount := 256 * size + data[i], i + 1, lenCount - 1;
    }
    ReadIsSlice(data, pos + 2, n);
    r := if size > INT_MAX then None else Some((data[pos], size, i));
  }

  lemma TwoRead(data: Bytes, pos: nat, a: Byte, b: Byte)
    requires Holds(data, pos, [a, b])
    ensures data[pos] == a && data[pos + 1] == b
  {
    ReadIsSlice(data, pos, 2);
    assert data[pos] == data[pos..pos + 2][0] && data[pos + 1] == data[pos..pos + 2][1];
  }

  lemma ShortHeader(data: Bytes, pos: nat, tag: Byte, size: nat)
    requires size < 127 && Holds(data, pos, [tag, size])
    ensures ReadHeader(data, pos) == Some((tag, size, pos + 2))
  {
    TwoRead(data, pos, tag, size);
  }

  lemma LongHeader(data: Bytes, pos: nat, tag: Byte, big: Bytes)
    requires 0 < |big| <= 4 && Number(big) <= INT_MAX
    requires Holds(data, pos, [tag, 128 + |big|]) && Holds(data, pos + 2, big)
    ensures ReadHeader(data, pos) == Some((tag, Number(big), pos + 2 + |big|))
  {
    TwoRead(data, pos, tag, 128 + |big|);
  }

  lemma HeaderParts(data: Bytes, pos: nat, tag: Byte, big: Bytes)
    requires |big| <= 4 && Holds(data, pos, [tag, 128 + |big|] + big)
    ensures Holds(data, pos, [tag, 128 + |big|]) && Holds(data, pos + 2, big)
  {
    HoldsConcat(data, pos, [tag, 128 + |big|], big);
  }

  lemma LongForm(tag: Byte, size: nat)
    requires 127 <= size <= INT_MAX
    ensures 0 < |BigEndian(size)| <= 4 && Number(BigEndian(size)) == size
    ensures Header(tag, size) == [tag, 128 + |BigEndian(size)|] + BigEndian(size)
  {
    IntBytes(size);
    NumberOfBigEndian(size);
  }

  lemma ShortForm(tag: Byte, size: nat)
    requires size < 127
    ensures Header(tag, size) == [tag, size]
  {
  }

  lemma LongReadsBack(data: Bytes, pos: nat, tag: Byte, big: Bytes, size: nat)
    requires 0 < |big| <= 4 && Number(big) == size <= INT_MAX
    requires Holds(data, pos, [tag, 128 + |big|]) && Holds(data, pos + 2, big)
    ensures ReadHeader(data, pos) == Some((tag, size, pos + |[tag, 128 + |big|] + big|))
  {
    LongHeader(data, pos, tag, big);
  }

  lemma ShortHeaderReadsBack(data: Bytes, pos: nat, tag: Byte, size: nat)
    requires size < 127 && Holds(data, pos, Header(tag, size))
    ensures ReadHeader(data, pos) == Some((tag, size, pos + |Header(tag, size)|))
  {
    ShortForm(tag, size);
    ShortHeader(data, pos, tag, size);
  }

  /** The bytes of the length in the long form. */
  lemma LongParts(tag: Byte, size: nat) returns (big: Bytes)
    requires 127 <= size <= INT_MAX
    ensures 0 < |big| <= 4 && Number(big) == size && Header(tag, size) == [tag, 128 + |big|] + big
  {
    LongForm(tag, size);
    big := BigEndian(size);
  }

  lemma LongAt(data: Bytes, pos: nat, tag: Byte, header: Bytes, big: Bytes, size: nat)
    requires 0 < |big| <= 4 && Number(big) == size <= INT_MAX
    requires header == [tag, 128 + |big|] + big && Holds(data, pos, header)
    ensures ReadHeader(data, pos) == Some((tag, size, pos + |header|))
  {
    HeaderParts(data, pos, tag, big);
    LongReadsBack(data, pos, tag, big, size);
  }

  lemma LongHeaderReadsBack(data: Bytes, pos: nat, tag: Byte, size: nat)
    requires 127 <= size <= INT_MAX && Holds(data, pos, Header(tag, size))
    ensures ReadHeader(data, pos) == Some((tag, size, pos + |Header(tag, size)|))
  {
    var big := LongParts(tag, size);
    LongAt(data, pos, tag, Header(tag, size), big, size);
  }

  lemma HeaderReadsBack(data: Bytes, pos: nat, tag: Byte, size: nat)
    requires size <= INT_MAX && Holds(data, pos, Header(tag, size))
    ensures ReadHeader(data, pos) == Some((tag, size, pos + |Header(tag, size)|))
  {
    if size < 127 {
      ShortHeaderReadsBack(data, pos, tag, size);
    } else {
      LongHeaderReadsBack(data, pos, tag, size);
    }
  }

  // Trees

  /** A primitive node keeps its header bytes; a sequence keeps the size of its content. */
  datatype Node =
    | Leaf(tag: Byte, header: Bytes, payload: Bytes)
    | Sequence(size: nat, children: seq<Node>)

  function Encoded(node: Node): Bytes
    requires Built(node)
    decreases node
  {
    match node
    case Leaf(_, header, payload) => header + payload
    case Sequence(size, children) => Header(SEQUENCE, size) + EncodedAll(children)
  }

  function EncodedAll(nodes: seq<Node>): Bytes
    requires BuiltAll(nodes)
    decreases nodes
  {
    if nodes == [] then [] else Encoded(nodes[0]) + EncodedAll(nodes[1..])
  }

  /** The node is as the constructors and `updateSize` make it, and its sizes fit an int. */
  predicate Built(node: Node)
    decreases node, 0
  {
    match node
    case Leaf(tag, header, payload) => Primitive(tag) && |payload| <= INT_MAX && header == Header(tag, |payload|)
    case Sequence(size, children) => size <= INT_MAX && BuiltAll(children) && size == |EncodedAll(children)|
  }

  predicate BuiltAll(nodes: seq<Node>)
    decreases nodes, 0
  {
    nodes == [] || (Built(nodes[0]) && BuiltAll(nodes[1..]))
  }

  /** What `getSize` says of a node just read. */
  function SizeOf(node: Node): nat
    requires node.Sequence? ==> node.size <= INT_MAX
  {
    match node
    case Leaf(_, header, payload) => |header| + |payload|
    case Sequence(size, _) => size + |Header(SEQUENCE, size)|
  }

  function ParseNode(data: Bytes, pos: nat): (r: Option<(Node, nat)>)
    ensures r.Some? ==> pos < r.value.1 <= |data|
    ensures r.Some? && r.value.0.Sequence? ==> r.value.0.size <= INT_MAX
    decreases |data| - pos, 0
  {
    var h := ReadHeader(data, pos);
    if h.None? then None
    else
      var (tag, size, next) := h.value;
      if Primitive(tag) then
        if next + size > |data| then None
        else Some((Leaf(tag, Read(data, pos, next - pos), Read(data, next, size)), next + size))
      else if tag == SEQUENCE then
        var kids := ParseChildren(data, next, size, 0);
        if kids.None? then None else Some((Sequence(size, kids.value.0), kids.value.1))
      else None
  }

  /** Reads children until their sizes reach `size`. */
  function ParseChildren(data: Bytes, pos: nat, size: nat, read: nat): (r: Option<(seq<Node>, nat)>)
    requires pos <= |data|
    ensures r.Some? ==> pos <= r.value.1 <= |data|
    decreases |data| - pos, 1
  {
    if read >= size then Some(([], pos))
    else
      var first := ParseNode(data, pos);
      if first.None? then None
      else
        var rest := ParseChildren(data, first.value.1, size, read + SizeOf(first.value.0));
        if rest.None? then None else Some(([first.value.0] + rest.value.0, rest.value.1))
  }

  method Parse(data: Bytes, pos: nat) returns (r: Option<(Node, nat)>)
    ensures r == ParseNode(data, pos)
    decreases |data| - pos, 0
  {
    var h := DecodeHeader(data, pos);
    if h.None? {
      return None;
    }
    var (tag, size, next) := h.value;
    if Primitive(tag) {
      if next + size > |data| {
        return None;
      }
      ReadIsSlice(data, pos, next - pos);
      ReadIsSlice(data, next, size);
      return Some((Leaf(tag, data[pos..next], data[next..next + size]), next + size));
    }
    if tag != SEQUENCE {
      return None;
    }
    var kids := ReadChildren(data, next, size);
    r := if kids.None? then None else Some((Sequence(size, kids.value.0), kids.value.1));
  }

  method ReadChildren(data: Bytes, pos: nat, size: nat) returns (r: Option<(seq<Node>, nat)>)
    requires pos <= |data|
    ensures r == ParseChildren(data, pos, size, 0)
    decreases |data| - pos, 1
  {
    var accSize: nat, children: seq<Node>, i: nat := 0, [], pos;
    LeadsStart(data, pos, size);
    while accSize < size
      invariant pos <= i <= |data|
      invariant Leads(data, pos, size, children, i, accSize)
      decreases |data| - i
    {
      var child := Parse(data, i);
      if child.None? {
        return None;
      }
      LeadsStep(data, pos, size, children, i, accSize, child.value.0, child.value.1);
      accSize := accSize + SizeOf(child.value.0);
      children := children + [child.value.0];
      i := child.value.1;
    }
    assert children + [] == children;
    r := Some((children, i));
  }

  /** After `done`, the rest of the children is read from `i` with `read` bytes accounted for. */
  ghost predicate Leads(data: Bytes, pos: nat, size: nat, done: seq<Node>, i: nat, read: nat)
    requires pos <= |data| && i <= |data|
  {
    ParseChildren(data, pos, size, 0) ==
    var rest := ParseChildren(data, i, size, read);
    if rest.None? then None else Some((done + rest.value.0, rest.value.1))
  }

  lemma LeadsStart(data: Bytes, pos: nat, size: nat)
    requires pos <= |data|
    ensures Leads(data, pos, size, [], pos, 0)
  {
    var all := ParseChildren(data, pos, size, 0);
    assert all.Some? ==> [] + all.value.0 == all.value.0;
  }

  function Prepend(node: Node, rest: Option<(seq<Node>, nat)>): Option<(seq<Node>, nat)> {
    if rest.None? then None else Some(([node] + rest.value.0, rest.value.1))
  }

  lemma ChildrenStep(data: Bytes, i: nat, size: nat, read: nat, child: Node, next: nat)
    requires i <= |data| && next <= |data| && read < size && ParseNode(data, i) == Some((child, next))
    ensures ParseChildren(data, i, size, read) == Prepend(child, ParseChildren(data, next, size, read + SizeOf(child)))
  {
  }

  lemma LeadsStep(data: Bytes, pos: nat, size: nat, done: seq<Node>, i: nat, read: nat, child: Node, next: nat)
    requires pos <= |data| && i <= |data| && next <= |data| && read < size
    requires Leads(data, pos, size, done, i, read) && ParseNode(data, i) == Some((child, next))
    ensures Leads(data, pos, size, done + [child], next, read + SizeOf(child))
  {
    ChildrenStep(data, i, size, read, child, next);
    var rest := ParseChildren(data, next, size, read + SizeOf(child));
    assert rest.Some? ==> done + ([child] + rest.value.0) == (done + [child]) + rest.value.0;
  }

  lemma SizeOfBuilt(node: Node)
    requires Built(node)
    ensures SizeOf(node) == |Encoded(node)| > 0
  {
  }

  lemma LeafGivenBack(data: Bytes, pos: nat, node: Node)
    requires node.Leaf? && Built(node) && Holds(data, pos, Encoded(node))
    ensures ParseNode(data, pos) == Some((node, pos + |Encoded(node)|))
  {
    HoldsConcat(data, pos, node.header, node.payload);
    HeaderReadsBack(data, pos, node.tag, |node.payload|);
  }

  /** A sequence's encoding is its header and, from `next` on, its children. */
  lemma SequenceFront(data: Bytes, pos: nat, node: Node) returns (next: nat)
    requires node.Sequence? && Built(node) && Holds(data, pos, Encoded(node))
    ensures ReadHeader(data, pos) == Some((SEQUENCE, node.size, next)) && BuiltAll(node.children)
    ensures Holds(data, next, EncodedAll(node.children)) && |EncodedAll(node.children)| == node.size
    ensures next + node.size == pos + |Encoded(node)|
  {
    var h := Header(SEQUENCE, node.size);
    HoldsConcat(data, pos, h, EncodedAll(node.children));
    HeaderReadsBack(data, pos, SEQUENCE, node.size);
    next := pos + |h|;
  }

  lemma SequenceGivenBack(data: Bytes, pos: nat, size: nat, next: nat, children: seq<Node>, end: nat)
    requires next <= |data| && ReadHeader(data, pos) == Some((SEQUENCE, size, next))
    requires ParseChildren(data, next, size, 0) == Some((children, end))
    ensures ParseNode(data, pos) == Some((Sequence(size, children), end))
  {
  }

  /** The nodes can be read one behind the other from `pos` to `end`. */
  ghost predicate ReadsAs(data: Bytes, pos: nat, nodes: seq<Node>, end: nat)
    decreases nodes
  {
    if nodes == [] then pos == end
    else
      var r := ParseNode(data, pos);
      r.Some? && r.value.0 == nodes[0] && ReadsAs(data, r.value.1, nodes[1..], end)
  }

  function TotalSize(nodes: seq<Node>): nat
    requires forall i | 0 <= i < |nodes| :: nodes[i].Sequence? ==> nodes[i].size <= INT_MAX
  {
    if nodes == [] then 0 else SizeOf(nodes[0]) + TotalSize(nodes[1..])
  }

  /** Nodes of the right total size are what the reader of children finds. */
  lemma {:induction false} ChildrenRead(data: Bytes, pos: nat, nodes: seq<Node>, end: nat, size: nat, read: nat)
    requires pos <= |data| && ReadsAs(data, pos, nodes, end)
    requires forall i | 0 <= i < |nodes| :: nodes[i].Sequence? ==> nodes[i].size <= INT_MAX
    requires forall i | 0 <= i < |nodes| :: SizeOf(nodes[i]) > 0
    requires read + TotalSize(nodes) == size
    ensures ParseChildren(data, pos, size, read) == Some((nodes, end))
    decreases nodes
  {
    if nodes == [] {
    } else {
      var next := ParseNode(data, pos).value.1;
      ChildrenRead(data, next, nodes[1..], end, size, read + SizeOf(nodes[0]));
      ChildrenStep(data, pos, size, read, nodes[0], next);
      assert nodes == [nodes[0]] + nodes[1..];
    }
  }

  lemma {:induction false} TotalOfBuilt(nodes: seq<Node>)
    requires BuiltAll(nodes)
    ensures forall i | 0 <= i < |nodes| :: nodes[i].Sequence? ==> nodes[i].size <= INT_MAX
    ensures forall i | 0 <= i < |nodes| :: SizeOf(nodes[i]) > 0
    ensures TotalSize(nodes) == |EncodedAll(nodes)|
  {
    if nodes == [] {
    } else {
      SizeOfBuilt(nodes[0]);
      TotalOfBuilt(nodes[1..]);
    }
  }

  /** Reading a node's encoding, whatever stands before or behind it, gives the node and its exact end. */
  lemma {:induction false} ParseGivesBack(data: Bytes, pos: nat, node: Node)
    requires Built(node) && Holds(data, pos, Encoded(node))
    ensures ParseNode(data, pos) == Some((node, pos + |Encoded(node)|))
    decreases node, 2
  {
    match node
    case Leaf(_, _, _) =>
      LeafGivenBack(data, pos, node);
    case Sequence(size, children) =>
      var next := SequenceFront(data, pos, node);
      EachGivenBack(data, next, children);
      TotalOfBuilt(children);
      ChildrenRead(data, next, children, next + size, size, 0);
      SequenceGivenBack(data, pos, size, next, children, next + size);
  }

  /** The encodings of several nodes start with that of the first. */
  lemma FrontOf(data: Bytes, pos: nat, nodes: seq<Node>) returns (next: nat)
    requires nodes != [] && BuiltAll(nodes) && Holds(data, pos, EncodedAll(nodes))
    ensures Built(nodes[0]) && BuiltAll(nodes[1..]) && next == pos + |Encoded(nodes[0])|
    ensures pos + |EncodedAll(nodes)| == next + |EncodedAll(nodes[1..])|
    ensures Holds(data, pos, Encoded(nodes[0])) && Holds(data, next, EncodedAll(nodes[1..]))
  {
    HoldsConcat(data, pos, Encoded(nodes[0]), EncodedAll(nodes[1..]));
    next := pos + |Encoded(nodes[0])|;
  }

  lemma {:induction false} FirstGivenBack(data: Bytes, pos: nat, nodes: seq<Node>) returns (next: nat)
    requires nodes != [] && BuiltAll(nodes) && Holds(data, pos, EncodedAll(nodes))
    ensures ParseNode(data, pos) == Some((nodes[0], next)) && BuiltAll(nodes[1..])
    ensures Holds(data, next, EncodedAll(nodes[1..])) && next + |EncodedAll(nodes[1..])| == pos + |EncodedAll(nodes)|
    decreases nodes, 0
  {
    next := FrontOf(data, pos, nodes);
    ParseGivesBack(data, pos, nodes[0]);
  }

  lemma {:induction false} EachGivenBack(data: Bytes, pos: nat, nodes: seq<Node>)
    requires BuiltAll(nodes) && Holds(data, pos, EncodedAll(nodes))
    ensures ReadsAs(data, pos, nodes, pos + |EncodedAll(nodes)|)
    decreases nodes, 1
  {
    if nodes == [] {
    } else {
      var next := FirstGivenBack(data, pos, nodes);
      EachGivenBack(data, next, nodes[1..]);
      ReadsStep(data, pos, nodes, next, pos + |EncodedAll(nodes)|);
    }
  }

  lemma ReadsStep(data: Bytes, pos: nat, nodes: seq<Node>, next: nat, end: nat)
    requires nodes != [] && ParseNode(data, pos) == Some((nodes[0], next)) && ReadsAs(data, next, nodes[1..], end)
    ensures ReadsAs(data, pos, nodes, end)
  {
  }

  // Object identifiers

  /** The leading base-128 digits of a number, each with the continuation flag. */
  function High(v: nat): Bytes {
    if v == 0 then [] else High(v / 128) + [128 + v % 128]
  }

  function Base128(v: nat): Bytes {
    High(v / 128) + [v % 128]
  }

  lemma {:induction false} HighLength(v: nat, n: nat)
    requires v < Power(128, n)
    ensures |High(v)| <= n
  {
    if v == 0 {
    } else {
      HighLength(v / 128, n - 1);
    }
  }

  lemma IntHigh(v: nat)
    requires v <= INT_MAX
    ensures |High(v / 128)| <= 5
  {
    assert Power(128, 1) == 128 && Power(128, 2) == 0x4000;
    assert Power(128, 3) == 0x20_0000;
    assert Power(128, 4) == 0x1000_0000;
    assert Power(128, 5) == 0x8_0000_0000;
    HighLength(v / 128, 5);
  }

  /** The number that an int is written as: of a negative one, only the low seven bits are. */
  function Kept(v: int): nat {
    if v < 0 then v % 128 else v
  }

  function KeptAll(values: seq<int>): seq<nat> {
    seq(|values|, i requires 0 <= i < |values| => Kept(values[i]))
  }

  /** Fills the six-byte buffer from its end. */
  method Encode128(value: int) returns (r: Bytes)
    requires INT_MIN <= value <= INT_MAX
    ensures r == Base128(Kept(value))
  {
    if value < 128 {
      return [value % 128];
    }
    var buf := new Byte[6];
    var p: nat, v: nat := 5, value / 128;
    buf[5] := value % 128;
    IntHigh(value);
    while v != 0
      invariant 0 <= p <= 5
      invariant Base128(value) == High(v) + buf[p..]
      invariant |High(v)| <= p
    {
      ghost var before := buf[p..];
      assert High(v) + before == High(v / 128) + ([128 + v % 128] + before);
      p := p - 1;
      buf[p] := 128 + v % 128;
      assert buf[p..] == [128 + v % 128] + before;
      v := v / 128;
    }
    r := buf[p..];
  }

  /** The number at `i` on top of the digits read before, and the position behind it; None when the input ends. */
  function Read128(s: Bytes, i: nat, acc: nat): Option<(nat, nat)>
    decreases |s| - i
  {
    if i >= |s| then None
    else if s[i] >= 128 then Read128(s, i + 1, 128 * acc + s[i] - 128)
    else Some((128 * acc + s[i], i + 1))
  }

  method Decode128(s: Bytes, offset: nat) returns (r: Option<(nat, nat)>)
    ensures r == Read128(s, offset, 0)
  {
    var result: nat, i: nat := 0, offset;
    while i < |s| && s[i] >= 128
      invariant offset <= i
      invariant Read128(s, offset, 0) == Read128(s, i, result)
    {
      result, i := 128 * result + s[i] - 128, i + 1;
    }
    r := if i >= |s| then None else Some((128 * result + s[i], i + 1));
  }

  lemma {:induction false} ReadHigh(s: Bytes, i: nat, v: nat)
    requires At(s, i, High(v))
    ensures Read128(s, i, 0) == Read128(s, i + |High(v)|, v)
  {
    if v == 0 {
    } else {
      var h := High(v / 128);
      AtConcat(s, i, h, [128 + v % 128]);
      ReadHigh(s, i, v / 128);
      var j := i + |h|;
      assert s[j] == s[j..j + 1][0] == 128 + v % 128;
    }
  }

  lemma Base128ReadsBack(s: Bytes, i: nat, v: nat)
    requires At(s, i, Base128(v))
    ensures Read128(s, i, 0) == Some((v, i + |Base128(v)|))
  {
    AtConcat(s, i, High(v / 128), [v % 128]);
    ReadHigh(s, i, v / 128);
    var j := i + |High(v / 128)|;
    assert s[j] == s[j..j + 1][0] == v % 128;
  }

  function Base128All(values: seq<nat>): Bytes {
    if values == [] then [] else Base128(values[0]) + Base128All(values[1..])
  }

  /** All numbers from `i` to the end of the payload. */
  function ReadAll128(s: Bytes, i: nat): Option<seq<nat>>
    decreases |s| - i
  {
    if i >= |s| then Some([])
    else
      var first := Read128(s, i, 0);
      if first.None? || first.value.1 <= i then None
      else
        var rest := ReadAll128(s, first.value.1);
        if rest.None? then None else Some([first.value.0] + rest.value)
  }

  /** Decoding gives back any list of numbers that was encoded. */
  lemma {:induction false} OidReadsBack(s: Bytes, i: nat, values: seq<nat>)
    requires At(s, i, Base128All(values)) && i + |Base128All(values)| == |s|
    ensures ReadAll128(s, i) == Some(values)
    decreases |values|
  {
    if values == [] {
    } else {
      AtConcat(s, i, Base128(values[0]), Base128All(values[1..]));
      Base128ReadsBack(s, i, values[0]);
      OidReadsBack(s, i + |Base128(values[0])|, values[1..]);
      assert [values[0]] + values[1..] == values;
    }
  }

  /** The payload of an object identifier: the first two numbers share one; None stands for an exception. */
  function OidPayload(value: seq<int>): Option<Bytes> {
    if value == [] || !(0 <= value[0] <= 2) || (|value| >= 2 && !(0 <= value[1] <= 39)) then None
    else if |value| == 1 then Some(Base128All([40 * value[0]]))
    else Some(Base128All([40 * value[0] + value[1]] + KeptAll(value[2..])))
  }

  method PrepareEncoding(value: seq<int>) returns (r: Option<Bytes>)
    requires forall v | v in value :: INT_MIN <= v <= INT_MAX
    ensures r == OidPayload(value)
  {
    if value == [] || !(0 <= value[0] <= 2) {
      return None;
    }
    var firstNumber: nat := 40 * value[0];
    if |value| >= 2 {
      if !(0 <= value[1] <= 39) {
        return None;
      }
      firstNumber := firstNumber + value[1];
    }
    var output := Encode128(firstNumber);
    Base128Append([], firstNumber);
    assert [] + [firstNumber] == [firstNumber];
    if |value| > 2 {
      output := AppendNumbers(output, value);
    }
    Base128Front(firstNumber, if |value| >= 2 then KeptAll(value[2..]) else []);
    r := Some(output);
  }

  /** Writes the numbers from the third on. */
  method AppendNumbers(os: Bytes, value: seq<int>) returns (r: Bytes)
    requires |value| > 2 && forall v | v in value :: INT_MIN <= v <= INT_MAX
    ensures r == os + Base128All(KeptAll(value[2..]))
  {
    r := os;
    var i := 2;
    while i < |value|
      invariant 2 <= i <= |value|
      invariant r == os + Base128All(KeptAll(value[2..i]))
    {
      assert value[i] in value;
      var next := Encode128(value[i]);
      KeptUpTo(value, i);
      r := r + next;
      i := i + 1;
    }
    assert value[2..i] == value[2..];
  }

  lemma KeptUpTo(value: seq<int>, i: nat)
    requires 2 <= i < |value|
    ensures Base128All(KeptAll(value[2..i + 1])) == Base128All(KeptAll(value[2..i])) + Base128(Kept(value[i]))
  {
    Base128Append(KeptAll(value[2..i]), Kept(value[i]));
    assert KeptAll(value[2..i + 1]) == KeptAll(value[2..i]) + [Kept(value[i])];
  }

  lemma Base128Front(v: nat, rest: seq<nat>)
    ensures Base128All([v] + rest) == Base128(v) + Base128All(rest)
  {
    assert ([v] + rest)[1..] == rest;
  }

  lemma {:induction false} Base128Append(values: seq<nat>, v: nat)
    ensures Base128All(values + [v]) == Base128All(values) + Base128(v)
  {
    if values == [] {
      assert values + [v] == [v] && [v][1..] == [];
    } else {
      assert (values + [v])[1..] == values[1..] + [v];
      Base128Append(values[1..], v);
    }
  }

  /** A missing second number is written as 0. */
  function Padded(a: seq<int>): seq<int> {
    if |a| == 1 then a + [0] else a
  }

  lemma PaddedPayload(a: seq<int>)
    requires OidPayload(a).Some?
    ensures |Padded(a)| >= 2 && OidPayload(Padded(a)) == OidPayload(a)
  {
    if |a| == 1 {
      assert Padded(a)[2..] == [] && [40 * a[0] + 0] + KeptAll([]) == [40 * a[0]];
    }
  }

  /** Identifiers share a payload exactly when they agree but for a second 0 and for what negative numbers lose. */
  lemma OidPayloadInjective(a: seq<int>, b: seq<int>)
    requires OidPayload(a).Some? && OidPayload(b).Some?
    ensures OidPayload(a) == OidPayload(b) <==> KeptAll(Padded(a)) == KeptAll(Padded(b))
  {
    PaddedPayload(a);
    PaddedPayload(b);
    LongPayloadInjective(Padded(a), Padded(b));
  }

  lemma LongPayloadInjective(a: seq<int>, b: seq<int>)
    requires |a| >= 2 && |b| >= 2 && OidPayload(a).Some? && OidPayload(b).Some?
    ensures OidPayload(a) == OidPayload(b) <==> KeptAll(a) == KeptAll(b)
  {
    if OidPayload(a) == OidPayload(b) {
      SamePayload(a, b);
    }
    if KeptAll(a) == KeptAll(b) {
      KeptParts(a);
      KeptParts(b);
      assert KeptAll(a)[0] == KeptAll(b)[0] && KeptAll(a)[1] == KeptAll(b)[1] && KeptAll(a)[2..] == KeptAll(b)[2..];
    }
  }

  lemma SameNumbers(x: seq<nat>, y: seq<nat>)
    requires Base128All(x) == Base128All(y)
    ensures x == y
  {
    var p := Base128All(x);
    assert p[0..|p|] == p;
    OidReadsBack(p, 0, x);
    OidReadsBack(p, 0, y);
  }

  lemma KeptParts(a: seq<int>)
    requires |a| >= 2 && a[0] >= 0 && a[1] >= 0
    ensures KeptAll(a) == [a[0], a[1]] + KeptAll(a[2..])
  {
  }

  lemma SamePayload(a: seq<int>, b: seq<int>)
    requires |a| >= 2 && |b| >= 2 && OidPayload(a).Some? && OidPayload(a) == OidPayload(b)
    ensures KeptAll(a) == KeptAll(b)
  {
    var x, y := [40 * a[0] + a[1]] + KeptAll(a[2..]), [40 * b[0] + b[1]] + KeptAll(b[2..]);
    SameNumbers(x, y);
    assert x[0] == y[0] && x[1..] == y[1..];
    KeptParts(a);
    KeptParts(b);
  }

  /** A negative last number is written like a positive one, and a lone number like one with a 0 behind it. */
  lemma OidsCanCollide()
    ensures OidPayload([1, 2, -1]) == OidPayload([1, 2, 127])
    ensures OidPayload([1]).Some? && OidPayload([1]) == OidPayload([1, 0])
  {
    OidPayloadInjective([1, 2, -1], [1, 2, 127]);
    assert KeptAll([1, 2, -1]) == [1, 2, 127] == KeptAll([1, 2, 127]);
    PaddedPayload([1]);
    assert Padded([1]) == [1, 0];
  }

  // Samples

  /** Eight tags are primitive, 48 is the sequence, and every other tag is refused. */
  lemma TagsParse(tag: Byte)
    ensures ParseNode([tag, 0], 0) ==
            if tag in {1, 2, 3, 4, 5, 6, 19, 24} then Some((Leaf(tag, [tag, 0], []), 2))
            else if tag == 48 then Some((Sequence(0, []), 2))
            else None
  {
    var data := [tag, 0];
    ReadIsSlice(data, 0, 2);
    assert data[0..2] == data && Read(data, 2, 0) == [];
    NoChildren(data, 2);
  }

  lemma NoChildren(data: Bytes, pos: nat)
    requires pos <= |data|
    ensures ParseChildren(data, pos, 0, 0) == Some(([], pos))
  {
  }

  lemma LengthSamples()
    ensures BigEndian(127) == [127] && BigEndian(300) == [1, 44]
  {
    assert BigEndian(127) == BigEndian(0) + [127] == [127];
    assert BigEndian(1) == BigEndian(0) + [1] == [1];
    assert BigEndian(300) == BigEndian(1) + [44] == [1, 44];
  }

  /** An octet string of 126, 127 and 300 bytes. */
  lemma HeaderSamples()
    ensures Header(4, 126) == [4, 126] && Header(4, 127) == [4, 129, 127] && Header(4, 300) == [4, 130, 1, 44]
  {
    LengthSamples();
    ShortForm(4, 126);
    LongForm(4, 127);
    LongForm(4, 300);
  }

  /** The payload holds 40 times the first number plus the second, and then the others. */
  lemma OidNumbers(a: seq<int>)
    requires |a| >= 2 && OidPayload(a).Some?
    ensures 0 <= a[0] <= 2 && 0 <= a[1] <= 39
    ensures ReadAll128(OidPayload(a).value, 0) == Some([40 * a[0] + a[1]] + KeptAll(a[2..]))
  {
    var p := OidPayload(a).value;
    assert p[0..|p|] == p;
    OidReadsBack(p, 0, [40 * a[0] + a[1]] + KeptAll(a[2..]));
  }

  lemma SmallNumbers()
    ensures Base128(42) == [42] && Base128(840) == [134, 72] && Base128(113549) == [134, 247, 13]
  {
    assert High(6) == High(0) + [134] == [134];
    assert High(887) == High(6) + [247] == [134, 247];
  }

  /** The identifier 1.2.840.113549. */
  lemma OidSample()
    ensures OidPayload([1, 2, 840, 113549]) == Some([42, 134, 72, 134, 247, 13])
  {
    SmallNumbers();
    var a, x := [1, 2, 840, 113549], [42, 840, 113549];
    assert KeptAll(a[2..]) == [840, 113549] && [42] + [840, 113549] == x;
    assert [840] + [113549] == [840, 113549] && [113549] + [] == [113549];
    Base128Front(42, [840, 113549]);
    Base128Front(840, [113549]);
    Base128Front(113549, []);
    assert Base128All(x) == [42] + ([134, 72] + ([134, 247, 13] + Base128All([])));
    assert Base128All([]) == [] && [134, 247, 13] + [] == [134, 247, 13];
    assert [134, 72] + [134, 247, 13] == [134, 72, 134, 247, 13];
    assert [42] + [134, 72, 134, 247, 13] == [42, 134, 72, 134, 247, 13];
    assert OidPayload(a) == Some(Base128All(x));
  }

  lemma OddHeader()
    ensures ReadHeader([4, 128, 5], 0) == Some((4, 5, 3))
  {
    ReadIsSlice([4, 128, 5], 2, 1);
    assert [4, 128, 5][2..3] == [5] && [5][..0] == [];
    assert Number([5]) == 256 * Number([]) + 5 == 5;
  }

  /** A length octet of 128 is followed by one byte of length all the same. */
  lemma OddHeaderSample()
    ensures ReadHeader([4, 128, 5], 0) == Some((4, 5, 3))
    ensures Read128([128, 5], 0, 0) == Some((5, 2))
  {
    OddHeader();
    assert Read128([128, 5], 1, 0) == Some((5, 2));
  }

  const OVERSHOOT: Bytes := [48, 1, 5, 0]

  lemma OvershootParts()
    ensures ReadHeader(OVERSHOOT, 0) == Some((48, 1, 2)) && ReadHeader(OVERSHOOT, 2) == Some((5, 0, 4))
    ensures Read(OVERSHOOT, 2, 2) == [5, 0] && Read(OVERSHOOT, 4, 0) == []
  {
    ReadIsSlice(OVERSHOOT, 2, 2);
    assert OVERSHOOT[2..4] == [5, 0];
  }

  lemma OvershootChild()
    ensures ParseNode(OVERSHOOT, 2) == Some((Leaf(5, [5, 0], []), 4))
  {
    OvershootParts();
  }

  lemma OvershootEnd()
    ensures ParseChildren(OVERSHOOT, 4, 1, 2) == Some(([], 4))
  {
  }

  /** A child may reach beyond the length of its sequence. */
  lemma OvershootSample()
    ensures ParseNode([48, 1, 5, 0], 0) == Some((Sequence(1, [Leaf(5, [5, 0], [])]), 4))
  {
    var child := Leaf(5, [5, 0], []);
    OvershootParts();
    OvershootChild();
    OvershootEnd();
    ChildrenStep(OVERSHOOT, 2, 1, 0, child, 4);
    assert SizeOf(child) == 2 && [child] + [] == [child];
    SequenceGivenBack(OVERSHOOT, 0, 1, 2, [child], 4);
  }
}
