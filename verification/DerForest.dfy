/** Trees of DER nodes as linked objects, with the lazily updated size of every complex node. */
module DerForest {
  import opened Octets
  import opened Sequences
  import opened Der

  /** A primitive node never changes; a complex one is shared with whoever built it. */
  datatype Child = Plain(node: Node) | Inner(complex: Complex)

  class Complex {
    var parent: Complex?
    var list: seq<Child>
    var size: nat
    var childChanged: bool

    constructor ()
      ensures parent == null && list == [] && size == 0 && !childChanged
    {
      parent, list, size, childChanged := null, [], 0, false;
    }
  }

  // The trees that the lists of children describe

  type Lists = map<Complex, seq<Child>>

  type Ranks = map<Complex, nat>

  ghost predicate ChildOk(lists: Lists, rank: Ranks, n: Complex, child: Child) {
    match child
    case Plain(node) => node.Leaf? && Built(node)
    case Inner(c) => c in lists && c in rank && n in rank && rank[c] < rank[n]
  }

  ghost predicate ListOk(lists: Lists, rank: Ranks, n: Complex, list: seq<Child>) {
    forall child | child in list :: ChildOk(lists, rank, n, child)
  }

  /** Ranks fall towards the leaves. */
  ghost predicate Ranked(lists: Lists, rank: Ranks) {
    lists.Keys <= rank.Keys &&
    forall n {:trigger ListOk(lists, rank, n, lists[n])} | n in lists :: ListOk(lists, rank, n, lists[n])
  }

  /** The tree below a complex node. */
  ghost function TreeOf(lists: Lists, rank: Ranks, n: Complex): Node
    requires Ranked(lists, rank) && n in lists
    decreases rank[n], |lists[n]| + 1
  {
    Sequence(BodySize(lists, rank, n, lists[n]), Trees(lists, rank, n, lists[n]))
  }

  ghost function ChildTree(lists: Lists, rank: Ranks, n: Complex, child: Child): Node
    requires Ranked(lists, rank) && n in lists && ChildOk(lists, rank, n, child)
    decreases rank[n], 0
  {
    match child
    case Plain(node) => node
    case Inner(c) => TreeOf(lists, rank, c)
  }

  ghost function Trees(lists: Lists, rank: Ranks, n: Complex, list: seq<Child>): seq<Node>
    requires Ranked(lists, rank) && n in lists && ListOk(lists, rank, n, list)
    decreases rank[n], |list|
  {
    if list == [] then []
    else Trees(lists, rank, n, Up(list)) + [ChildTree(lists, rank, n, list[|list| - 1])]
  }

  /** How many bytes a header takes for content of the given size. */
  function HeaderSize(size: nat): nat {
    if size < 127 then 2 else 2 + |BigEndian(size)|
  }

  /** The number of bytes that children are encoded into. */
  ghost function BodySize(lists: Lists, rank: Ranks, n: Complex, list: seq<Child>): nat
    requires Ranked(lists, rank) && n in lists && ListOk(lists, rank, n, list)
    decreases rank[n], |list|
  {
    if list == [] then 0
    else BodySize(lists, rank, n, Up(list)) + ChildSize(lists, rank, n, list[|list| - 1])
  }

  ghost function ChildSize(lists: Lists, rank: Ranks, n: Complex, child: Child): nat
    requires Ranked(lists, rank) && n in lists && ChildOk(lists, rank, n, child)
    decreases rank[n], 0
  {
    match child
    case Plain(node) => |Encoded(node)|
    case Inner(c) => FullSize(lists, rank, c)
  }

  ghost function FullSize(lists: Lists, rank: Ranks, n: Complex): nat
    requires Ranked(lists, rank) && n in lists
    decreases rank[n], |lists[n]| + 1
  {
    var body := BodySize(lists, rank, n, lists[n]);
    body + HeaderSize(body)
  }

  lemma EncodedAllCons(first: Node, rest: seq<Node>)
    requires Built(first) && BuiltAll(rest)
    ensures BuiltAll([first] + rest) && EncodedAll([first] + rest) == Encoded(first) + EncodedAll(rest)
  {
    assert ([first] + rest)[1..] == rest;
  }

  lemma {:induction false} EncodedAllAppend(nodes: seq<Node>, x: Node)
    requires BuiltAll(nodes) && Built(x)
    ensures BuiltAll(nodes + [x]) && EncodedAll(nodes + [x]) == EncodedAll(nodes) + Encoded(x)
  {
    if nodes == [] {
      assert nodes + [x] == [x] + [];
      EncodedAllCons(x, []);
    } else {
      var first, rest := nodes[0], nodes[1..];
      EncodedAllAppend(rest, x);
      EncodedAllCons(first, rest + [x]);
      AppendRest(nodes, x);
      ConcatAssociative(Encoded(first), EncodedAll(rest), Encoded(x));
    }
  }

  lemma HeaderLength(tag: Byte, size: nat)
    requires size <= INT_MAX
    ensures |Header(tag, size)| == HeaderSize(size)
  {
  }

  /** While sizes fit an int, the computed sizes are the lengths of the encodings. */
  lemma {:induction false} TreesAreBuilt(lists: Lists, rank: Ranks, n: Complex, list: seq<Child>)
    requires Ranked(lists, rank) && n in lists && ListOk(lists, rank, n, list)
    requires BodySize(lists, rank, n, list) <= INT_MAX
    ensures var ts := Trees(lists, rank, n, list);
            BuiltAll(ts) && |EncodedAll(ts)| == BodySize(lists, rank, n, list)
    decreases rank[n], |list|
  {
    if list == [] {
    } else {
      var last := list[|list| - 1];
      TreesAreBuilt(lists, rank, n, Up(list));
      ChildIsBuilt(lists, rank, n, last);
      EncodedAllAppend(Trees(lists, rank, n, Up(list)), ChildTree(lists, rank, n, last));
    }
  }

  lemma {:induction false} ChildIsBuilt(lists: Lists, rank: Ranks, n: Complex, x: Child)
    requires Ranked(lists, rank) && n in lists && ChildOk(lists, rank, n, x)
    requires ChildSize(lists, rank, n, x) <= INT_MAX
    ensures var t := ChildTree(lists, rank, n, x); Built(t) && |Encoded(t)| == ChildSize(lists, rank, n, x)
    decreases rank[n], 0
  {
    if x.Inner? {
      TreeIsBuilt(lists, rank, x.complex);
    }
  }

  lemma {:induction false} TreeIsBuilt(lists: Lists, rank: Ranks, n: Complex)
    requires Ranked(lists, rank) && n in lists && BodySize(lists, rank, n, lists[n]) <= INT_MAX
    ensures var t := TreeOf(lists, rank, n); Built(t) && |Encoded(t)| == FullSize(lists, rank, n)
    decreases rank[n], |lists[n]| + 1
  {
    TreesAreBuilt(lists, rank, n, lists[n]);
    HeaderLength(SEQUENCE, BodySize(lists, rank, n, lists[n]));
  }

  // Links

  type Parents = map<Complex, Complex?>

  type Roots = map<Complex, Complex>

  /** The children of a node are known and point back to it. */
  ghost predicate Backlinked(lists: Lists, par: Parents, n: Complex)
    requires n in lists
  {
    forall x | x in lists[n] && x.Inner? :: x.complex in par && par[x.complex] == n
  }

  /** A node stands in its parent's list, and a tree shares one root. */
  ghost predicate Uplinked(lists: Lists, par: Parents, root: Roots, n: Complex)
    requires n in par
  {
    n in root &&
    if par[n] == null then root[n] == n
    else par[n] in lists && par[n] in root && root[n] == root[par[n]] && Inner(n) in lists[par[n]]
  }

  ghost predicate Linked(lists: Lists, par: Parents, rank: Ranks, root: Roots, top: nat) {
    && Ranked(lists, rank) && par.Keys == lists.Keys && lists.Keys <= root.Keys
    && (forall n | n in lists :: rank[n] <= top)
    && (forall n {:trigger Backlinked(lists, par, n)} | n in lists :: Backlinked(lists, par, n))
    && (forall n {:trigger Uplinked(lists, par, root, n)} | n in lists :: Uplinked(lists, par, root, n))
  }

  lemma RankRises(lists: Lists, par: Parents, rank: Ranks, root: Roots, top: nat, n: Complex)
    requires Linked(lists, par, rank, root, top) && n in lists && par[n] != null
    ensures par[n] in lists && rank[n] < rank[par[n]] <= top
  {
    assert Uplinked(lists, par, root, n);
    assert ListOk(lists, rank, par[n], lists[par[n]]);
    assert ChildOk(lists, rank, par[n], Inner(n));
  }

  lemma LinkedNew(lists: Lists, par: Parents, rank: Ranks, root: Roots, top: nat, n: Complex)
    requires Linked(lists, par, rank, root, top) && n !in lists
    ensures Linked(lists[n := []], par[n := null], rank[n := 0], root[n := n], top)
  {
    var lists', par', rank', root' := lists[n := []], par[n := null], rank[n := 0], root[n := n];
    forall m | m in lists
      ensures ListOk(lists', rank', m, lists[m]) && Backlinked(lists', par', m) && Uplinked(lists', par', root', m)
    {
      assert ListOk(lists, rank, m, lists[m]) && Backlinked(lists, par, m) && Uplinked(lists, par, root, m);
      forall x | x in lists[m] ensures ChildOk(lists', rank', m, x) {
        assert ChildOk(lists, rank, m, x);
      }
    }
  }

  lemma RankedPlain(lists: Lists, rank: Ranks, a: Complex, x: Child)
    requires Ranked(lists, rank) && a in lists && x.Plain? && x.node.Leaf? && Built(x.node)
    ensures Ranked(lists[a := lists[a] + [x]], rank)
  {
    var lists' := lists[a := lists[a] + [x]];
    forall n | n in lists' ensures ListOk(lists', rank, n, lists'[n]) {
      assert ListOk(lists, rank, n, lists[n]);
      forall y | y in lists'[n] ensures ChildOk(lists', rank, n, y) {
        assert y in lists[n] ==> ChildOk(lists, rank, n, y);
      }
    }
  }

  lemma LinkedPlain(lists: Lists, par: Parents, rank: Ranks, root: Roots, top: nat, a: Complex, x: Child)
    requires Linked(lists, par, rank, root, top) && a in lists && x.Plain? && x.node.Leaf? && Built(x.node)
    ensures Linked(lists[a := lists[a] + [x]], par, rank, root, top)
  {
    var lists' := lists[a := lists[a] + [x]];
    RankedPlain(lists, rank, a, x);
    forall n | n in lists' ensures Backlinked(lists', par, n) && Uplinked(lists', par, root, n) {
      assert Backlinked(lists, par, n) && Uplinked(lists, par, root, n);
    }
  }

  /** Everything outside the tree of `c` is raised above it. */
  ghost function Raised(lists: Lists, rank: Ranks, root: Roots, top: nat, c: Complex): Ranks
    requires lists.Keys <= rank.Keys && lists.Keys <= root.Keys
  {
    map n | n in lists :: if root[n] == c then rank[n] else rank[n] + top + 1
  }

  ghost function Rerooted(lists: Lists, root: Roots, a: Complex, c: Complex): Roots
    requires lists.Keys <= root.Keys && a in lists
  {
    map n | n in lists :: if root[n] == c then root[a] else root[n]
  }

  lemma RankedInner(lists: Lists, par: Parents, rank: Ranks, root: Roots, top: nat, a: Complex, c: Complex)
    requires Linked(lists, par, rank, root, top)
    requires a in lists && c in lists && par[c] == null && root[a] != c
    ensures Ranked(lists[a := lists[a] + [Inner(c)]], Raised(lists, rank, root, top, c))
  {
    var lists', rank' := lists[a := lists[a] + [Inner(c)]], Raised(lists, rank, root, top, c);
    assert Uplinked(lists, par, root, c);
    forall n | n in lists' ensures ListOk(lists', rank', n, lists'[n]) {
      assert ListOk(lists, rank, n, lists[n]) && Backlinked(lists, par, n);
      forall x | x in lists'[n] ensures ChildOk(lists', rank', n, x) {
        if x in lists[n] {
          assert ChildOk(lists, rank, n, x);
          assert x.Inner? ==> Uplinked(lists, par, root, x.complex);
        }
      }
    }
  }

  lemma LinkedInner(lists: Lists, par: Parents, rank: Ranks, root: Roots, top: nat, a: Complex, c: Complex)
    requires Linked(lists, par, rank, root, top)
    requires a in lists && c in lists && par[c] == null && root[a] != c
    ensures Linked(lists[a := lists[a] + [Inner(c)]], par[c := a], Raised(lists, rank, root, top, c),
                   Rerooted(lists, root, a, c), 2 * top + 1)
  {
    var lists', par', root' := lists[a := lists[a] + [Inner(c)]], par[c := a], Rerooted(lists, root, a, c);
    RankedInner(lists, par, rank, root, top, a, c);
    assert Uplinked(lists, par, root, c);
    forall n | n in lists' ensures Backlinked(lists', par', n) && Uplinked(lists', par', root', n) {
      assert Backlinked(lists, par, n) && Uplinked(lists, par, root, n);
    }
  }

  /** Who is linked to whom. */
  datatype Books = Books(lists: Lists, par: Parents, rank: Ranks, root: Roots, top: nat)

  type GoodBooks = b: Books | Linked(b.lists, b.par, b.rank, b.root, b.top)
    ghost witness Books(map[], map[], map[], map[], 0)

  /** What may be added to `a`: a primitive node, or the root of another tree. */
  ghost predicate Addable(b: GoodBooks, a: Complex, x: Child) {
    a in b.lists &&
    match x
    case Plain(node) => node.Leaf? && Built(node)
    case Inner(c) => c in b.lists && b.par[c] == null && b.root[a] != c
  }

  lemma NewBooks(b: GoodBooks, n: Complex) returns (r: GoodBooks)
    requires n !in b.lists
    ensures r.lists == b.lists[n := []] && r.par == b.par[n := null]
  {
    LinkedNew(b.lists, b.par, b.rank, b.root, b.top, n);
    r := Books(b.lists[n := []], b.par[n := null], b.rank[n := 0], b.root[n := n], b.top);
  }

  lemma ChildBooks(b: GoodBooks, a: Complex, x: Child) returns (r: GoodBooks)
    requires Addable(b, a, x)
    ensures r.lists == b.lists[a := b.lists[a] + [x]]
    ensures r.par == if x.Inner? then b.par[x.complex := a] else b.par
  {
    var lists := b.lists[a := b.lists[a] + [x]];
    match x
    case Plain(_) =>
      LinkedPlain(b.lists, b.par, b.rank, b.root, b.top, a, x);
      r := b.(lists := lists);
    case Inner(c) =>
      LinkedInner(b.lists, b.par, b.rank, b.root, b.top, a, c);
      r := Books(lists, b.par[c := a], Raised(b.lists, b.rank, b.root, b.top, c), Rerooted(b.lists, b.root, a, c),
                 2 * b.top + 1);
  }

  // Flags and sizes

  /** What the fields of all nodes say. */
  datatype Model = Model(books: GoodBooks, changed: set<Complex>, size: map<Complex, nat>)

  /** A changed child has a changed parent, unless the parent is one of `but`. */
  ghost predicate Upward(par: Parents, changed: set<Complex>, but: set<Complex>) {
    forall n, p {:trigger par[n], p in changed} | n in par && n in changed && par[n] == p && p != null && p !in but ::
      p in changed
  }

  /** What the sizes of the children add up to, headers included. */
  ghost function Sum(size: map<Complex, nat>, list: seq<Child>): nat {
    if list == [] then 0 else Sum(size, Up(list)) + SizeNow(size, list[|list| - 1])
  }

  ghost function SizeNow(size: map<Complex, nat>, x: Child): nat {
    match x
    case Plain(node) => if Built(node) then |Encoded(node)| else 0
    case Inner(c) => if c in size then size[c] + HeaderSize(size[c]) else 0
  }

  /** An unchanged node's size is what its children's sizes add up to. */
  ghost predicate AddsUp(m: Model) {
    m.size.Keys == m.books.lists.Keys &&
    forall n {:trigger Sum(m.size, m.books.lists[n])} | n in m.size && n !in m.changed ::
      m.size[n] == Sum(m.size, m.books.lists[n])
  }

  ghost predicate Sound(m: Model) {
    Upward(m.books.par, m.changed, {}) && AddsUp(m)
  }

  type GoodModel = m: Model | Sound(m) ghost witness Model(Books(map[], map[], map[], map[], 0), {}, map[])

  /** The changed nodes after a notice at `n` has gone up as far as it goes. */
  ghost function Noticed(b: GoodBooks, changed: set<Complex>, n: Complex): set<Complex>
    requires n in b.lists
    decreases b.top - b.rank[n]
  {
    if n in changed || b.par[n] == null then changed + {n}
    else
      RankRises(b.lists, b.par, b.rank, b.root, b.top, n);
      Noticed(b, changed, b.par[n]) + {n}
  }

  lemma {:induction false} NoticeGoesUp(b: GoodBooks, changed: set<Complex>, n: Complex, but: set<Complex>)
    requires n in b.lists && Upward(b.par, changed, but)
    ensures Upward(b.par, Noticed(b, changed, n), but - {n})
    ensures changed <= Noticed(b, changed, n) && n in Noticed(b, changed, n)
    decreases b.top - b.rank[n]
  {
    if n !in changed && b.par[n] != null {
      RankRises(b.lists, b.par, b.rank, b.root, b.top, n);
      NoticeGoesUp(b, changed, b.par[n], but + {b.par[n]});
    }
  }

  lemma {:induction false} SumSame(a: map<Complex, nat>, b: map<Complex, nat>, list: seq<Child>)
    requires forall x | x in list :: SizeNow(a, x) == SizeNow(b, x)
    ensures Sum(a, list) == Sum(b, list)
  {
    if list == [] {
    } else {
      var last := list[|list| - 1];
      assert list == Up(list) + [last];
      assert last in list;
      SumSame(a, b, Up(list));
    }
  }

  /** A child added under a noticed node leaves the sizes of unchanged nodes right. */
  lemma WithChild(m: GoodModel, a: Complex, x: Child) returns (r: GoodModel)
    requires Addable(m.books, a, x)
    ensures r.books.lists == m.books.lists[a := m.books.lists[a] + [x]]
    ensures r.books.par == if x.Inner? then m.books.par[x.complex := a] else m.books.par
    ensures r.changed == Noticed(r.books, m.changed, a) && r.size == m.size && a in r.changed
  {
    var b := ChildBooks(m.books, a, x);
    NoticeGoesUp(b, m.changed, a, {a});
    r := Model(b, Noticed(b, m.changed, a), m.size);
  }

  /** `n` and everything below it knows its own size when `n` is unchanged. */
  lemma {:induction false} UnchangedKnows(m: Model, n: Complex)
    requires Sound(m) && n in m.size && n !in m.changed
    ensures m.size[n] == BodySize(m.books.lists, m.books.rank, n, m.books.lists[n])
    decreases m.books.rank[n]
  {
    var b := m.books;
    assert Backlinked(b.lists, b.par, n) && ListOk(b.lists, b.rank, n, b.lists[n]);
    forall x | x in b.lists[n]
      ensures ChildOk(b.lists, b.rank, n, x) && SizeNow(m.size, x) == ChildSize(b.lists, b.rank, n, x)
    {
      assert ChildOk(b.lists, b.rank, n, x);
      if x.Inner? {
        UnchangedKnows(m, x.complex);
      }
    }
    SumIsBody(m, n, b.lists[n]);
  }

  lemma {:induction false} SumIsBody(m: Model, n: Complex, list: seq<Child>)
    requires n in m.books.lists && ListOk(m.books.lists, m.books.rank, n, list)
    requires forall x | x in list ::
               && ChildOk(m.books.lists, m.books.rank, n, x)
               && SizeNow(m.size, x) == ChildSize(m.books.lists, m.books.rank, n, x)
    ensures Sum(m.size, list) == BodySize(m.books.lists, m.books.rank, n, list)
  {
    if list == [] {
    } else {
      var last := list[|list| - 1];
      assert list == Up(list) + [last];
      assert last in list;
      SumIsBody(m, n, Up(list));
    }
  }

  /** From `a` to `b` only flags went down and only the sizes of changed nodes were set. */
  ghost predicate Settled(a: GoodModel, b: GoodModel) {
    && b.books == a.books && b.changed <= a.changed && b.size.Keys == a.size.Keys
    && forall c | c in a.size && c !in a.changed :: b.size[c] == a.size[c]
  }

  lemma SettledOn(a: GoodModel, b: GoodModel, c: GoodModel)
    requires Settled(a, b) && Settled(b, c)
    ensures Settled(a, c)
  {
  }

  /** The sizes of settled children stay as they are. */
  lemma SettledSum(a: GoodModel, b: GoodModel, list: seq<Child>)
    requires Settled(a, b) && forall x | x in list && x.Inner? :: x.complex in a.size && x.complex !in a.changed
    ensures Sum(b.size, list) == Sum(a.size, list)
  {
    SumSame(a.size, b.size, list);
  }

  /** A node whose children are unchanged can take their sum for its own size. */
  lemma SettleNode(m: GoodModel, n: Complex, total: nat) returns (r: GoodModel)
    requires n in m.size && total == Sum(m.size, m.books.lists[n])
    requires forall x | x in m.books.lists[n] && x.Inner? :: x.complex !in m.changed
    ensures r == Model(m.books, m.changed - {n}, m.size[n := total]) && Settled(m, r)
  {
    var b, changed, size := m.books, m.changed - {n}, m.size[n := total];
    forall k, p | k in b.par && k in changed && b.par[k] == p && p != null ensures p in changed {
      assert Uplinked(b.lists, b.par, b.root, k);
    }
    assert n !in m.changed ==> size[n] == m.size[n];
    forall k | k in size && k !in changed ensures size[k] == Sum(size, b.lists[k]) {
      assert Backlinked(b.lists, b.par, k) && ListOk(b.lists, b.rank, k, b.lists[k]);
      assert k != n ==> m.size[k] == Sum(m.size, b.lists[k]);
      forall x | x in b.lists[k] ensures SizeNow(m.size, x) == SizeNow(size, x) {
        assert ChildOk(b.lists, b.rank, k, x);
      }
      SumSame(m.size, size, b.lists[k]);
    }
    r := Model(b, changed, size);
  }

  /** The first `i` children of `n` are settled and their sizes add up to `total`. */
  ghost predicate SummedUp(m: GoodModel, n: Complex, i: nat, total: nat) {
    && n in m.size && i <= |m.books.lists[n]| && total == Sum(m.size, m.books.lists[n][..i])
    && forall x | x in m.books.lists[n][..i] && x.Inner? :: x.complex in m.size && x.complex !in m.changed
  }

  lemma SummedStep(a: GoodModel, b: GoodModel, n: Complex, i: nat, total: nat, s: nat)
    requires SummedUp(a, n, i, total) && Settled(a, b) && i < |a.books.lists[n]|
    requires var x := a.books.lists[n][i];
             s == SizeNow(b.size, x) && (x.Inner? ==> x.complex in b.size && x.complex !in b.changed)
    ensures SummedUp(b, n, i + 1, total + s)
  {
    var list := a.books.lists[n];
    var done, x := list[..i], list[i];
    assert list[..i + 1] == done + [x];
    SettledSum(a, b, done);
    SumAppend(b.size, done, x);
    forall y | y in done + [x] && y.Inner? ensures y.complex in b.size && y.complex !in b.changed {
      assert y in done || y == x;
    }
  }

  lemma SumAppend(size: map<Complex, nat>, list: seq<Child>, x: Child)
    ensures Sum(size, list + [x]) == Sum(size, list) + SizeNow(size, x)
  {
    assert Up(list + [x]) == list;
  }

  lemma Concluded(a: GoodModel, b: GoodModel, n: Complex, total: nat) returns (r: GoodModel)
    requires Settled(a, b) && n in b.size && SummedUp(b, n, |b.books.lists[n]|, total)
    ensures Settled(a, r) && r.books == b.books && r.changed == b.changed - {n} && r.size == b.size[n := total]
  {
    var list := b.books.lists[n];
    assert list[..|list|] == list;
    r := SettleNode(b, n, total);
    SettledOn(a, b, r);
  }

  lemma {:induction false} ChildFits(lists: Lists, rank: Ranks, n: Complex, list: seq<Child>, x: Child)
    requires Ranked(lists, rank) && n in lists && ListOk(lists, rank, n, list) && x in list
    ensures ChildSize(lists, rank, n, x) <= BodySize(lists, rank, n, list)
  {
    var last := list[|list| - 1];
    assert list == Up(list) + [last];
    if x != last {
      ChildFits(lists, rank, n, Up(list), x);
    }
  }

  /** The complex nodes built so far; its fields are kept for the proof only. */
  class Forest {
    ghost var lists: Lists
    ghost var par: Parents
    ghost var changed: set<Complex>
    ghost var size: map<Complex, nat>
    ghost var model: GoodModel

    ghost predicate NodeKept(n: Complex)
      requires n in lists
      reads `lists, `par, `changed, `size, n
    {
      && n.list == lists[n]
      && n in par && n.parent == par[n]
      && (n.childChanged <==> n in changed)
      && n in size && n.size == size[n]
    }

    /** The ghost fields say what the nodes' own fields say. */
    ghost predicate Kept()
      reads `lists, `par, `changed, `size, lists.Keys
    {
      forall n {:trigger NodeKept(n)} | n in lists :: NodeKept(n)
    }

    ghost predicate Linked(m: Model)
      reads `lists, `par
    {
      m.books.lists == lists && m.books.par == par
    }

    ghost predicate Tells(m: Model)
      reads `lists, `par, `changed, `size
    {
      Linked(m) && m.changed == changed && m.size == size
    }

    ghost predicate Valid()
      reads this, lists.Keys
    {
      Kept() && Tells(model)
    }

    constructor ()
      ensures Valid() && lists == map[]
    {
      lists, par, changed, size := map[], map[], {}, map[];
      model := Model(Books(map[], map[], map[], map[], 0), {}, map[]);
    }

    method NewSequence() returns (n: Complex)
      requires Valid()
      modifies this
      ensures Valid() && fresh(n)
      ensures lists == old(lists)[n := []] && par == old(par)[n := null]
    {
      n := new Complex();
      ghost var now := WithNew(model, n);
      Enter(n);
      model := now;
    }

    /** Takes up a new node. */
    ghost method Enter(n: Complex)
      requires Kept() && n !in lists && n.list == [] && n.parent == null && !n.childChanged && n.size == 0
      modifies `lists, `par, `changed, `size
      ensures Kept() && lists == old(lists)[n := []] && par == old(par)[n := null]
      ensures changed == old(changed) - {n} && size == old(size)[n := 0]
    {
      lists, par, changed, size := lists[n := []], par[n := null], changed - {n}, size[n := 0];
      forall k | k in lists ensures NodeKept(k) {
        assert k != n ==> old(NodeKept(k));
      }
    }

    method SetChildChanged(n: Complex, ghost m: Model)
      requires Kept() && Linked(m) && n in lists
      modifies `changed, lists.Keys`childChanged
      ensures Kept() && changed == Noticed(m.books, old(changed), n)
      decreases m.books.top - m.books.rank[n]
    {
      assert NodeKept(n);
      if n.parent != null && !n.childChanged {
        RankRises(lists, par, m.books.rank, m.books.root, m.books.top, n);
        SetChildChanged(n.parent, m);
      }
      Mark(n);
    }

    method Mark(n: Complex)
      requires Kept() && n in lists
      modifies `changed, n`childChanged
      ensures Kept() && changed == old(changed) + {n}
    {
      n.childChanged := true;
      changed := changed + {n};
      forall k | k in lists ensures NodeKept(k) {
        assert old(NodeKept(k));
      }
    }

    /** Links a primitive node in. */
    method AttachPlain(a: Complex, x: Child)
      requires Kept() && a in lists && x.Plain?
      modifies `lists, a`list
      ensures Kept() && lists == old(lists)[a := old(lists)[a] + [x]]
    {
      assert NodeKept(a);
      a.list := a.list + [x];
      lists := lists[a := lists[a] + [x]];
      forall k | k in lists ensures NodeKept(k) {
        assert old(NodeKept(k));
      }
    }

    /** Links the root of another tree in. */
    method AttachInner(a: Complex, c: Complex)
      requires Kept() && a in lists && c in lists
      modifies `lists, `par, a`list, c`parent
      ensures Kept() && lists == old(lists)[a := old(lists)[a] + [Inner(c)]] && par == old(par)[c := a]
    {
      assert NodeKept(a);
      c.parent := a;
      a.list := a.list + [Inner(c)];
      lists, par := lists[a := lists[a] + [Inner(c)]], par[c := a];
      forall k | k in lists ensures NodeKept(k) {
        assert old(NodeKept(k));
      }
    }

    method Attach(a: Complex, x: Child)
      requires Kept() && a in lists && (x.Inner? ==> x.complex in lists)
      modifies `lists, `par, lists.Keys`list, lists.Keys`parent
      ensures Kept() && lists == old(lists)[a := old(lists)[a] + [x]]
      ensures par == if x.Inner? then old(par)[x.complex := a] else old(par)
    {
      match x
      case Plain(_) => AttachPlain(a, x);
      case Inner(c) => AttachInner(a, c);
    }

    /** Marks `a` after a child was added, and tells its ancestors. */
    method Notify(a: Complex, ghost m: Model)
      requires Kept() && Linked(m) && a in lists
      modifies `changed, lists.Keys`childChanged
      ensures Kept() && changed == Noticed(m.books, old(changed), a)
    {
      assert NodeKept(a);
      if a.childChanged {
        assert changed + {a} == changed;
        return;
      }
      if a.parent != null {
        RankRises(lists, par, m.books.rank, m.books.root, m.books.top, a);
        NoticeFirst(m.books, changed, a);
      }
      var parent := a.parent;
      Mark(a);
      if parent != null {
        SetChildChanged(parent, m);
      }
    }

    /** Links the child in and sends the notice up; `m` says what becomes of that. */
    method Join(a: Complex, x: Child, ghost m: Model)
      requires Kept() && a in lists && (x.Inner? ==> x.complex in lists)
      requires m.books.lists == lists[a := lists[a] + [x]]
      requires m.books.par == if x.Inner? then par[x.complex := a] else par
      requires m.changed == Noticed(m.books, changed, a) && m.size == size
      modifies `lists, `par, `changed, lists.Keys
      ensures Kept() && Tells(m)
    {
      Attach(a, x);
      Notify(a, m);
    }

    /** What the links, flags and sizes will be when the child has been added. */
    lemma Plan(a: Complex, x: Child) returns (now: GoodModel)
      requires Tells(model) && Addable(model.books, a, x)
      ensures now.books.lists == lists[a := lists[a] + [x]]
      ensures now.books.par == if x.Inner? then par[x.complex := a] else par
      ensures now.changed == Noticed(now.books, changed, a) && now.size == size && a in now.changed
      ensures a in lists && (x.Inner? ==> x.complex in lists)
    {
      now := WithChild(model, a, x);
    }

    ghost method Adopt(m: GoodModel)
      requires Kept() && Tells(m)
      modifies `model
      ensures Valid()
    {
      model := m;
    }

    method AddChild(a: Complex, x: Child)
      requires Valid() && Addable(model.books, a, x)
      modifies this, lists.Keys
      ensures Valid() && a in changed
      ensures lists == old(lists)[a := old(lists)[a] + [x]]
      ensures par == if x.Inner? then old(par)[x.complex := a] else old(par)
    {
      ghost var now := Plan(a, x);
      Join(a, x, now);
      Adopt(now);
    }

    /** Sets the size of a node and takes its flag down. */
    method Record(n: Complex, total: nat)
      requires Kept() && n in lists
      modifies `changed, `size, n`size, n`childChanged
      ensures Kept() && changed == old(changed) - {n} && size == old(size)[n := total]
    {
      n.size, n.childChanged := total, false;
      changed, size := changed - {n}, size[n := total];
      forall k | k in lists ensures NodeKept(k) {
        assert old(NodeKept(k));
      }
    }

    /** The encoding of what is below `n` fits an int. */
    ghost predicate Fits(n: Complex)
      reads `model
    {
      n in model.books.lists && BodySize(model.books.lists, model.books.rank, n, model.books.lists[n]) <= INT_MAX
    }

    /** The header of an unchanged node. */
    method HeaderOf(n: Complex) returns (header: Bytes)
      requires Valid() && Fits(n) && n !in changed
      ensures n in size && n.size == size[n] == BodySize(model.books.lists, model.books.rank, n, model.books.lists[n])
      ensures header == Header(SEQUENCE, size[n]) && |header| == HeaderSize(size[n])
    {
      assert NodeKept(n);
      UnchangedKnows(model, n);
      var h := EncodeHeader(SEQUENCE, n.size);
      HeaderLength(SEQUENCE, n.size);
      header := h.value;
    }

    method GetSize(n: Complex) returns (r: nat)
      requires Valid() && Fits(n)
      modifies `changed, `size, `model, lists.Keys`size, lists.Keys`childChanged
      ensures Valid() && Settled(old(model), model) && n !in changed
      ensures n in size && r == size[n] + HeaderSize(size[n])
      ensures r == FullSize(model.books.lists, model.books.rank, n)
      decreases model.books.rank[n], 5
    {
      Refresh(n);
      var header := HeaderOf(n);
      r := n.size + |header|;
    }

    method Refresh(n: Complex)
      requires Valid() && Fits(n)
      modifies `changed, `size, `model, lists.Keys`size, lists.Keys`childChanged
      ensures Valid() && Settled(old(model), model) && n !in changed
      decreases model.books.rank[n], 4
    {
      assert NodeKept(n);
      if n.childChanged {
        UpdateSize(n);
      }
    }

    /** What one child contributes. */
    method SizeOfChild(n: Complex, x: Child) returns (r: nat)
      requires Valid() && Fits(n) && x in lists[n]
      modifies `changed, `size, `model, lists.Keys`size, lists.Keys`childChanged
      ensures Valid() && Settled(old(model), model)
      ensures r == SizeNow(size, x) && (x.Inner? ==> x.complex in size && x.complex !in changed)
      decreases model.books.rank[n], 0
    {
      assert ListOk(lists, model.books.rank, n, lists[n]);
      assert ChildOk(lists, model.books.rank, n, x);
      match x
      case Plain(node) =>
        r := |node.header| + |node.payload|;
      case Inner(c) =>
        ChildFits(lists, model.books.rank, n, lists[n], x);
        r := GetSize(c);
    }

    method AddSize(n: Complex, i: nat, total: nat) returns (r: nat)
      requires Valid() && Fits(n) && i < |lists[n]| && SummedUp(model, n, i, total)
      modifies `changed, `size, `model, lists.Keys`size, lists.Keys`childChanged
      ensures Valid() && Settled(old(model), model) && SummedUp(model, n, i + 1, r)
      decreases model.books.rank[n], 1
    {
      assert NodeKept(n);
      ghost var before := model;
      var s := SizeOfChild(n, n.list[i]);
      SummedStep(before, model, n, i, total, s);
      r := total + s;
    }

    method SumSizes(n: Complex) returns (newSize: nat)
      requires Valid() && Fits(n)
      modifies `changed, `size, `model, lists.Keys`size, lists.Keys`childChanged
      ensures Valid() && Settled(old(model), model) && SummedUp(model, n, |lists[n]|, newSize)
      decreases model.books.rank[n], 2
    {
      assert NodeKept(n);
      newSize := 0;
      var i := 0;
      while i < |n.list|
        invariant 0 <= i <= |n.list| && n.list == lists[n]
        invariant Valid() && Settled(old(model), model) && SummedUp(model, n, i, newSize)
      {
        ghost var before := model;
        newSize := AddSize(n, i, newSize);
        SettledOn(old(model), before, model);
        i := i + 1;
      }
    }

    method UpdateSize(n: Complex)
      requires Valid() && Fits(n)
      modifies `changed, `size, `model, lists.Keys`size, lists.Keys`childChanged
      ensures Valid() && Settled(old(model), model) && n !in changed
      decreases model.books.rank[n], 3
    {
      ghost var was := model;
      var newSize := SumSizes(n);
      ghost var now := Concluded(was, model, n, newSize);
      Settle(n, newSize, now);
    }

    method Settle(n: Complex, total: nat, ghost now: GoodModel)
      requires Kept() && Linked(now) && n in lists
      requires now.changed == changed - {n} && now.size == size[n := total]
      modifies `changed, `size, `model, n`size, n`childChanged
      ensures Valid() && model == now && n !in changed
    {
      Record(n, total);
      model := now;
    }

    /** `out` is the encoding of the first `i` children. */
    ghost predicate Written(n: Complex, i: nat, out: Bytes)
      reads `model
    {
      var b := model.books;
      && n in b.lists && i <= |b.lists[n]| && ListOk(b.lists, b.rank, n, b.lists[n][..i])
      && BuiltAll(Trees(b.lists, b.rank, n, b.lists[n][..i]))
      && out == EncodedAll(Trees(b.lists, b.rank, n, b.lists[n][..i]))
    }

    method EncodeChild(n: Complex, i: nat, body: Bytes) returns (out: Bytes)
      requires Valid() && Fits(n) && i < |lists[n]| && Written(n, i, body)
      modifies `changed, `size, `model, lists.Keys`size, lists.Keys`childChanged
      ensures Valid() && Settled(old(model), model) && Written(n, i + 1, out)
      decreases model.books.rank[n], 0
    {
      ghost var b, x := model.books, lists[n][i];
      assert NodeKept(n) && ListOk(b.lists, b.rank, n, b.lists[n]) && ChildOk(b.lists, b.rank, n, x);
      ChildFits(b.lists, b.rank, n, b.lists[n], x);
      match n.list[i]
      case Plain(node) =>
        out := body + (node.header + node.payload);
        TreesStep(b.lists, b.rank, n, b.lists[n], i);
      case Inner(c) =>
        var piece := Encode(c);
        out := body + piece;
        TreesStep(b.lists, b.rank, n, b.lists[n], i);
    }

    method EncodeChildren(n: Complex) returns (out: Bytes)
      requires Valid() && Fits(n)
      modifies `changed, `size, `model, lists.Keys`size, lists.Keys`childChanged
      ensures Valid() && Settled(old(model), model) && Written(n, |lists[n]|, out)
      decreases model.books.rank[n], 2
    {
      assert NodeKept(n);
      out := [];
      var i := 0;
      while i < |n.list|
        invariant 0 <= i <= |n.list| && n.list == lists[n]
        invariant Valid() && Settled(old(model), model) && Written(n, i, out)
      {
        out := EncodeOn(n, i, out, old(model));
        i := i + 1;
      }
    }

    /** One turn of the loop over the children; `first` is how things were before the loop. */
    method EncodeOn(n: Complex, i: nat, body: Bytes, ghost first: GoodModel) returns (out: Bytes)
      requires Valid() && Fits(n) && n.list == lists[n] && i < |n.list|
      requires Settled(first, model) && Written(n, i, body)
      modifies `changed, `size, `model, lists.Keys`size, lists.Keys`childChanged
      ensures Valid() && Settled(first, model) && Written(n, i + 1, out)
      decreases model.books.rank[n], 1
    {
      ghost var before := model;
      out := EncodeChild(n, i, body);
      SettledOn(first, before, model);
    }

    /** Writes the tree below `n`; what `getSize` says is the length of what is written. */
    method Encode(n: Complex) returns (out: Bytes)
      requires Valid() && Fits(n)
      modifies `changed, `size, `model, lists.Keys`size, lists.Keys`childChanged
      ensures Valid() && Settled(old(model), model)
      ensures var t := TreeOf(model.books.lists, model.books.rank, n);
              Built(t) && out == Encoded(t) && |out| == FullSize(model.books.lists, model.books.rank, n)
      decreases model.books.rank[n], 4
    {
      UpdateSize(n);
      ghost var before := model;
      TreeIsBuilt(model.books.lists, model.books.rank, n);
      var header := HeaderOf(n);
      var body := EncodeChildren(n);
      SettledOn(old(model), before, model);
      assert lists[n][..|lists[n]|] == lists[n];
      out := header + body;
    }
  }

  lemma TreesStep(lists: Lists, rank: Ranks, n: Complex, list: seq<Child>, i: nat)
    requires Ranked(lists, rank) && n in lists && list == lists[n] && i < |list|
    requires ListOk(lists, rank, n, list[..i]) && BuiltAll(Trees(lists, rank, n, list[..i]))
    requires ChildOk(lists, rank, n, list[i]) && Built(ChildTree(lists, rank, n, list[i]))
    ensures ListOk(lists, rank, n, list[..i + 1]) && BuiltAll(Trees(lists, rank, n, list[..i + 1]))
    ensures EncodedAll(Trees(lists, rank, n, list[..i + 1]))
            == EncodedAll(Trees(lists, rank, n, list[..i])) + Encoded(ChildTree(lists, rank, n, list[i]))
  {
    assert list[..i + 1] == list[..i] + [list[i]] && Up(list[..i + 1]) == list[..i];
    EncodedAllAppend(Trees(lists, rank, n, list[..i]), ChildTree(lists, rank, n, list[i]));
  }

  lemma WithNew(m: GoodModel, n: Complex) returns (r: GoodModel)
    requires n !in m.books.lists
    ensures r.books.lists == m.books.lists[n := []] && r.books.par == m.books.par[n := null]
    ensures r.changed == m.changed - {n} && r.size == m.size[n := 0]
  {
    var b := NewBooks(m.books, n);
    r := NewIsSound(m, b, n);
  }

  lemma NewIsSound(m: GoodModel, b: GoodBooks, n: Complex) returns (r: GoodModel)
    requires n !in m.books.lists
    requires b.lists == m.books.lists[n := []] && b.par == m.books.par[n := null]
    ensures r == Model(b, m.changed - {n}, m.size[n := 0])
  {
    var size, changed := m.size[n := 0], m.changed - {n};
    forall k | k in m.size && k !in m.changed ensures Sum(size, b.lists[k]) == m.size[k] {
      assert Backlinked(m.books.lists, m.books.par, k);
      SumSame(m.size, size, b.lists[k]);
    }
    forall k, p | k in b.par && k in changed && b.par[k] == p && p != null ensures p in changed {
      assert Uplinked(m.books.lists, m.books.par, m.books.root, k);
    }
    r := Model(b, changed, size);
  }

  /** Marking a node first and then noticing its parent comes to the same. */
  lemma {:induction false} NoticeFirst(b: GoodBooks, changed: set<Complex>, n: Complex)
    requires n in b.lists && n !in changed && b.par[n] != null
    ensures b.par[n] in b.lists && Noticed(b, changed + {n}, b.par[n]) == Noticed(b, changed, n)
  {
    RankRises(b.lists, b.par, b.rank, b.root, b.top, n);
    NoticeMarked(b, changed, b.par[n], n);
  }

  lemma {:induction false} NoticeMarked(b: GoodBooks, changed: set<Complex>, n: Complex, low: Complex)
    requires n in b.lists && low in b.rank && b.rank[low] < b.rank[n]
    ensures Noticed(b, changed + {low}, n) == Noticed(b, changed, n) + {low}
    decreases b.top - b.rank[n]
  {
    if n !in changed && b.par[n] != null {
      RankRises(b.lists, b.par, b.rank, b.root, b.top, n);
      NoticeMarked(b, changed, b.par[n], low);
    }
  }
}
