module NameTrie {
  import opened Sequences

  /** One trie node. `key`, `parent` and `path` are fixed when the node is linked in. */
  class Node<K(==,!new), P(!new)> {
    const key: K
    const parent: Node?<K, P>
    ghost const path: seq<K>
    var children: map<K, Node<K, P>>
    var order: seq<K>
    var payload: Option<P>

    constructor (key: K, parent: Node?<K, P>, ghost path: seq<K>)
      ensures this.key == key && this.parent == parent && this.path == path
      ensures children == map[] && order == [] && payload == None
    {
      this.key, this.parent, this.path := key, parent, path;
      children, order, payload := map[], [], None;
    }
  }

  /** `p` is the root or lies on the way to a key of `m`. */
  ghost predicate Spanned<K(!new), P>(m: map<seq<K>, P>, p: seq<K>) {
    p == [] || exists q :: q in m && p <= q
  }

  class Trie<K(==,!new), P(!new)> {
    const root: Node<K, P>
    ghost var at: map<seq<K>, Node<K, P>>

    ghost predicate NodeOk(p: seq<K>)
      requires p in at
      reads `at, at.Values`children, at.Values`order
    {
      var n := at[p];
      && n.path == p
      && (p == [] ==> n == root && n.parent == null)
      && (p != [] ==>
            && Up(p) in at && n.parent == at[Up(p)] && n.key == p[|p| - 1]
            && n.key in at[Up(p)].children && at[Up(p)].children[n.key] == n)
      && (forall k | k in n.children :: p + [k] in at && n.children[k] == at[p + [k]])
      && NoDup(n.order)
      && (forall k :: k in n.order <==> k in n.children)
    }

    ghost predicate Shape()
      reads `at, at.Values`children, at.Values`order
    {
      [] in at && forall p {:trigger NodeOk(p)} | p in at :: NodeOk(p)
    }

    ghost predicate Useful(n: Node<K, P>)
      reads n
    {
      n == root || n.payload.Some? || n.children != map[]
    }

    ghost predicate Pruned()
      reads this, at.Values
    {
      forall p | p in at :: Useful(at[p])
    }

    ghost predicate Valid()
      reads this, at.Values
    {
      Shape() && Pruned()
    }

    ghost function Entries(): (m: map<seq<K>, P>)
      reads this, at.Values
    {
      map p | p in at && at[p].payload.Some? :: at[p].payload.value
    }

    /** The payload stored under `p`, if any. */
    ghost function Lookup(p: seq<K>): (v: Option<P>)
      reads this, at.Values
    {
      if p in at then at[p].payload else None
    }

    twostate lemma SameEntries()
      requires forall p :: Lookup(p) == old(Lookup(p))
      ensures Entries() == old(Entries())
    {
      forall p ensures p in Entries() <==> Lookup(p).Some? {
      }
      forall p ensures p in old(Entries()) <==> old(Lookup(p)).Some? {
      }
      forall p | p in Entries() ensures Entries()[p] == old(Entries())[p] {
        assert Lookup(p) == old(Lookup(p));
      }
    }

    constructor (rootKey: K)
      ensures Valid() && Entries() == map[] && fresh(at.Values) && at.Keys == {[]}
    {
      var r := new Node(rootKey, null, []);
      root := r;
      at := map[[] := r];
    }

    /** The child of `node` under `k`, linked in when it is missing. */
    method ChildAt(node: Node<K, P>, k: K) returns (child: Node<K, P>)
      requires Shape()
      requires node.path in at && at[node.path] == node
      modifies `at, node`children, node`order
      ensures Shape()
      ensures at.Keys == old(at.Keys) + {node.path + [k]} && at[node.path + [k]] == child
      ensures forall p | p in old(at) :: at[p] == old(at[p])
      ensures node.path + [k] !in old(at) ==> fresh(child)
      ensures forall p :: Lookup(p) == old(Lookup(p))
      ensures old(AllUseful(node.path)) ==> AllUseful(node.path + [k])
    {
      ghost var _ := NodeOk(node.path);
      if k !in node.children {
        LinkChild(node, k);
        ghost var _ := NodeOk(node.path);
      }
      child := node.children[k];
    }

    /** Walks `key` down from the root, linking in the nodes that are missing. */
    method MakePath(key: seq<K>) returns (node: Node<K, P>)
      requires Shape()
      modifies this, at.Values
      ensures Shape()
      ensures key in at && node == at[key]
      ensures Grown(old(at), at, key)
      ensures forall p | p in at && p !in old(at) :: fresh(at[p])
      ensures forall p :: Lookup(p) == old(Lookup(p))
      ensures old(Pruned()) ==> AllUseful(key)
    {
      node := root;
      ghost var _ := NodeOk([]);
      var i := 0;
      while i < |key|
        invariant 0 <= i <= |key|
        invariant Shape()
        invariant key[..i] in at && node == at[key[..i]]
        invariant Grown(old(at), at, key[..i])
        invariant forall p | p in at && p !in old(at) :: fresh(at[p])
        invariant forall p :: Lookup(p) == old(Lookup(p))
        invariant old(Pruned()) ==> AllUseful(key[..i])
      {
        assert key[..i+1] == key[..i] + [key[i]];
        ghost var _ := NodeOk(key[..i]);
        node := ChildAt(node, key[i]);
        i := i + 1;
      }
      assert key[..i] == key;
    }

    /** `b` keeps every node of `a` and adds nodes only on the way to `key`. */
    ghost predicate Grown(a: map<seq<K>, Node<K, P>>, b: map<seq<K>, Node<K, P>>, key: seq<K>) {
      && a.Keys <= b.Keys
      && (forall p | p in a :: b[p] == a[p])
      && (forall p | p in b :: p in a || p <= key)
    }

    method Insert(key: seq<K>, payload: P) returns (node: Node<K, P>, isNew: bool)
      requires Shape()
      modifies this, at.Values
      ensures Shape()
      ensures old(Pruned()) ==> Pruned()
      ensures key in at && node == at[key]
      ensures isNew <==> key !in old(Entries())
      ensures Entries() == if isNew then old(Entries())[key := payload] else old(Entries())
      ensures Grown(old(at), at, key)
      ensures forall p | p in at && p !in old(at) :: fresh(at[p])
    {
      node := MakePath(key);
      SameEntries();
      isNew := node.payload.None?;
      ghost var _ := NodeOk(key);
      if isNew {
        SetPayload(node, Some(payload));
      }
    }

    method SetPayload(node: Node<K, P>, v: Option<P>)
      requires Shape()
      requires node.path in at && at[node.path] == node
      modifies node`payload
      ensures node.payload == v
      ensures Entries() == if v.Some? then old(Entries())[node.path := v.value] else old(Entries()) - {node.path}
    {
      node.payload := v;
      forall p | p in at && p != node.path ensures at[p] != node {
        ghost var _ := NodeOk(p);
      }
    }

    method LinkChild(node: Node<K, P>, k: K)
      requires Shape()
      requires node.path in at && at[node.path] == node && k !in node.children
      modifies `at, node`children, node`order
      ensures Shape()
      ensures node.path + [k] !in old(at)
      ensures at.Keys == old(at.Keys) + {node.path + [k]}
      ensures forall p | p in old(at) :: at[p] == old(at[p])
      ensures fresh(at[node.path + [k]])
      ensures at[node.path + [k]].payload == None
      ensures k in node.children
    {
      ghost var here, q := node.path, node.path + [k];
      ghost var _ := NodeOk(here);
      assert Up(q) == here;
      assert q in at ==> NodeOk(q);
      forall p | p in at && p != here ensures at[p] != node {
        ghost var _ := NodeOk(p);
      }
      var child := new Node(k, node, q);
      var pos: nat :| pos <= |node.order|;
      node.order := InsertAt(node.order, pos, k);
      node.children := node.children[k := child];
      at := at[q := child];
      forall p | p in at ensures NodeOk(p) {
        if p == here {
          ghost var _ := old(NodeOk(p));
        } else if p != q {
          ghost var _ := old(NodeOk(p));
        }
      }
    }

    /** Takes the payload-free leaf `node` out of its parent's children. */
    method Unlink(node: Node<K, P>)
      requires Shape() && AllUseful(node.path)
      requires node.path in at && at[node.path] == node
      requires node.parent != null && node.payload == None && node.children == map[]
      modifies `at, node.parent`children, node.parent`order
      ensures Shape() && node.path != [] && AllUseful(Up(node.path))
      ensures at == old(at) - {node.path}
      ensures Up(node.path) in at && at[Up(node.path)] == node.parent && node.parent.path == Up(node.path)
      ensures OrdersKept(old(Orders()), Orders(), node.path, Up(node.path))
      ensures Entries() == old(Entries())
    {
      Detach(node);
      assert Up(node.path) <= node.path;
      SameEntries();
    }

    /** Every node but the one at `p` is the root, carries a payload or has children. */
    ghost predicate AllUseful(p: seq<K>)
      reads this, at.Values
    {
      forall q | q in at && q != p :: Useful(at[q])
    }

    method Detach(node: Node<K, P>)
      requires Shape()
      requires node.path in at && at[node.path] == node
      requires node.parent != null && node.children == map[]
      modifies `at, node.parent`children, node.parent`order
      ensures Shape()
      ensures at == old(at) - {node.path}
      ensures node.path != [] && Up(node.path) in at && at[Up(node.path)] == node.parent
      ensures node.parent.path == Up(node.path)
      ensures node.parent.order == Without(old(node.parent.order), node.path[|node.path| - 1])
      ensures forall p | p in at && p != Up(node.path) :: at[p] != node.parent
    {
      ghost var _ := NodeOk(node.path);
      ghost var q, u := node.path, Up(node.path);
      var parent := node.parent;
      ghost var _ := NodeOk(u);
      forall p | p in at && p != u ensures at[p] != parent {
        ghost var _ := NodeOk(p);
      }
      SplitLast(q);
      parent.children := parent.children - {node.key};
      parent.order := Without(parent.order, node.key);
      at := at - {q};
      forall p | p in at ensures NodeOk(p) {
        ghost var _ := old(NodeOk(p));
        if p != [] {
          SplitLast(p);
        }
        forall k | k in at[p].children ensures p + [k] in at {
          SplitAppend(p, k);
        }
      }
    }

    /** `b` is `a` without the nodes on the way from `to` (kept) down to `from` (removed). */
    ghost predicate Shrunk(a: map<seq<K>, Node<K, P>>, b: map<seq<K>, Node<K, P>>, from: seq<K>, to: seq<K>) {
      && to <= from && from in a && to in b
      && b.Keys <= a.Keys
      && (forall p | p in b :: b[p] == a[p])
      && (forall p | p in a :: p !in b <==> p <= from && |to| < |p|)
    }

    lemma ShrunkStep(a: map<seq<K>, Node<K, P>>, b: map<seq<K>, Node<K, P>>, from: seq<K>, to: seq<K>)
      requires from != [] && from in a
      requires Shrunk(a - {from}, b, Up(from), to)
      ensures Shrunk(a, b, from, to)
    {
      assert Up(from) <= from;
      forall p | p in a ensures p !in b <==> p <= from && |to| < |p| {
        PrefixUp(p, from);
      }
    }

    /** The order of the children of every node, by path. */
    ghost function Orders(): (ord: map<seq<K>, seq<K>>)
      reads `at, at.Values`order
      ensures ord.Keys == at.Keys && forall p | p in at :: ord[p] == at[p].order
    {
      map p | p in at :: at[p].order
    }

    /** Only `to` has lost a child: the one on the way down to `from`. */
    ghost predicate OrdersKept(a: map<seq<K>, seq<K>>, b: map<seq<K>, seq<K>>, from: seq<K>, to: seq<K>) {
      && to <= from && to in a && to in b && b.Keys <= a.Keys
      && (forall p | p in b && p != to :: b[p] == a[p])
      && b[to] == if to == from then a[to] else Without(a[to], from[|to|])
    }

    lemma OrdersStep(a: map<seq<K>, seq<K>>, b: map<seq<K>, seq<K>>, c: map<seq<K>, seq<K>>, from: seq<K>, to: seq<K>)
      requires from != [] && OrdersKept(a, b, from, Up(from)) && OrdersKept(b, c, Up(from), to)
      requires to != Up(from) ==> Up(from) !in c
      ensures OrdersKept(a, c, from, to)
    {
      PrefixUp(to, from);
      assert Up(from) <= from;
    }

    /** Removes the payload-free leaf `node` and every ancestor that this leaves a payload-free leaf. */
    method Prune(node: Node<K, P>) returns (cursor: Node<K, P>)
      requires Shape() && AllUseful(node.path)
      requires node.path in at && at[node.path] == node
      modifies `at, at.Values`children, at.Values`order
      ensures Valid()
      ensures Shrunk(old(at), at, node.path, cursor.path) && at[cursor.path] == cursor
      ensures OrdersKept(old(Orders()), Orders(), node.path, cursor.path)
      ensures Entries() == old(Entries())
      decreases |node.path|
    {
      ghost var _ := NodeOk(node.path);
      if node.payload.None? && |node.children| == 0 {
        if node.parent == null {
          return node;
        }
        var parent := node.parent;
        Unlink(node);
        ghost var between := Orders();
        cursor := Prune(parent);
        ShrunkStep(old(at), at, node.path, cursor.path);
        OrdersStep(old(Orders()), between, Orders(), node.path, cursor.path);
      } else {
        cursor := node;
      }
    }

    /** Drops the payload of `node` and prunes from there. */
    method Erase(node: Node<K, P>) returns (cursor: Node<K, P>)
      requires Valid()
      requires node.path in at && at[node.path] == node
      modifies `at, at.Values
      ensures Valid()
      ensures Shrunk(old(at), at, node.path, cursor.path) && at[cursor.path] == cursor
      ensures OrdersKept(old(Orders()), Orders(), node.path, cursor.path)
      ensures Entries() == old(Entries()) - {node.path}
    {
      SetPayload(node, None);
      forall p | p in at && p != node.path ensures Useful(at[p]) {
        ghost var _ := NodeOk(p);
      }
      cursor := Prune(node);
    }

    /** Every prefix of a path in the trie is in the trie. */
    lemma {:induction false} PrefixClosed(p: seq<K>, q: seq<K>)
      requires Shape() && q in at && p <= q
      ensures p in at
      decreases |q|
    {
      if p == q {
      } else {
        ghost var _ := NodeOk(q);
        PrefixUp(p, q);
        PrefixClosed(p, Up(q));
      }
    }

    /** The paths at or below `p`. */
    ghost function Below(p: seq<K>): (s: set<seq<K>>)
      reads `at
    {
      set q | q in at && p <= q
    }

    lemma BelowChild(p: seq<K>, k: K)
      requires p in at
      ensures Below(p + [k]) < Below(p)
    {
      assert p <= p + [k];
      assert p in Below(p) && p !in Below(p + [k]);
    }

    /** In a pruned trie every non-root node has a stored key at or below it. */
    lemma {:induction false} StoredBelow(p: seq<K>) returns (q: seq<K>)
      requires Valid() && p in at && p != []
      ensures q in Entries() && p <= q
      decreases Below(p)
    {
      assert NodeOk(p) && NodeOk([]) && Useful(at[p]);
      if at[p].payload.Some? {
        q := p;
      } else {
        var k :| k in at[p].children;
        BelowChild(p, k);
        q := StoredBelow(p + [k]);
      }
    }

    /** The first `i` components of `key` are stored and may be reported; the root is not tested. */
    ghost predicate Hit(key: seq<K>, i: nat, pred: P -> bool)
      requires i <= |key|
      reads this, at.Values
    {
      key[..i] in Entries() && (i == 0 || pred(Entries()[key[..i]]))
    }

    /** `found` is the node of the longest hit among the first `n` components of `key`; null says there is none. */
    ghost predicate LongestHit(found: Node?<K, P>, key: seq<K>, n: nat, pred: P -> bool)
      requires n <= |key|
      reads this, at.Values
    {
      if found == null then forall j | 0 <= j <= n :: !Hit(key, j, pred)
      else
        && |found.path| <= n && found.path == key[..|found.path|]
        && Hit(key, |found.path|, pred) && at[found.path] == found
        && forall j | |found.path| < j <= n :: !Hit(key, j, pred)
    }

    /** Longest-prefix walk; `find` is the case of a predicate that always holds. */
    method FindIf(key: seq<K>, pred: P -> bool)
      returns (found: Node?<K, P>, reachLast: bool, last: Node<K, P>)
      requires Shape()
      ensures last.path in at && at[last.path] == last && last.path <= key
      ensures reachLast <==> key in at
      ensures reachLast ==> last.path == key
      ensures LongestHit(found, key, |key|, pred)
    {
      last := root;
      ghost var _ := NodeOk([]);
      found := if root.payload.Some? then root else null;
      reachLast := true;
      var i := 0;
      assert key[..0] == [];
      while i < |key|
        invariant 0 <= i <= |key|
        invariant key[..i] in at && last == at[key[..i]] && last.path == key[..i]
        invariant LongestHit(found, key, i, pred)
      {
        assert key[..i+1] == key[..i] + [key[i]];
        ghost var _ := NodeOk(key[..i]);
        if key[i] !in last.children {
          assert key[..i+1] in at ==> NodeOk(key[..i+1]);
          NoLongerPath(key, i + 1);
          reachLast := false;
          return;
        }
        last := last.children[key[i]];
        ghost var _ := NodeOk(key[..i+1]);
        if last.payload.Some? && pred(last.payload.value) {
          found := last;
        }
        i := i + 1;
      }
      assert key[..i] == key;
    }

    lemma NoLongerPath(key: seq<K>, i: nat)
      requires Shape() && i <= |key| && key[..i] !in at
      ensures forall j | i <= j <= |key| :: key[..j] !in at
      ensures key !in at
    {
      forall j | i <= j <= |key| && key[..j] in at ensures false {
        assert key[..i] <= key[..j];
        PrefixClosed(key[..i], key[..j]);
      }
      assert key[..|key|] == key;
    }

    /** Some stored node at or below `node` whose payload satisfies `pred`, or null. */
    method FindBelow(node: Node<K, P>, pred: P -> bool) returns (found: Node?<K, P>)
      requires Shape()
      requires node.path in at && at[node.path] == node
      ensures found == null ==> NothingBelow(node.path, pred)
      ensures found != null ==>
                && node.path <= found.path && found.path in Entries() && pred(Entries()[found.path])
                && at[found.path] == found
      decreases Below(node.path)
    {
      if node.payload.Some? && pred(node.payload.value) {
        return node;
      }
      ghost var _ := NodeOk(node.path);
      var i := 0;
      while i < |node.order|
        invariant 0 <= i <= |node.order|
        invariant forall j | 0 <= j < i :: NothingBelow(node.path + [node.order[j]], pred)
      {
        var k := node.order[i];
        assert k in node.order;
        ghost var _ := NodeOk(node.path + [k]);
        BelowChild(node.path, k);
        found := FindBelow(node.children[k], pred);
        if found != null {
          return found;
        }
        i := i + 1;
      }
      found := null;
      ChildrenCover(node.path, pred);
    }

    ghost predicate NothingBelow(p: seq<K>, pred: P -> bool)
      reads this, at.Values
    {
      forall q | q in Entries() && p <= q :: !pred(Entries()[q])
    }

    lemma ChildrenCover(p: seq<K>, pred: P -> bool)
      requires Shape() && p in at
      requires p in Entries() ==> !pred(Entries()[p])
      requires forall j | 0 <= j < |at[p].order| :: NothingBelow(p + [at[p].order[j]], pred)
      ensures NothingBelow(p, pred)
    {
      forall q | q in Entries() && p <= q && p != q ensures !pred(Entries()[q]) {
        var k := q[|p|];
        assert p + [k] <= q;
        PrefixClosed(p + [k], q);
        assert NodeOk(p) && NodeOk(p + [k]) && Up(p + [k]) == p;
        assert k in at[p].order;
        assert NothingBelow(p + [k], pred);
      }
    }

    /** A pruned trie holds the root and the prefixes of stored keys, and nothing else. */
    lemma NodesFromEntries()
      requires Valid()
      ensures forall p :: p in at <==> Spanned(Entries(), p)
    {
      forall p ensures p in at <==> Spanned(Entries(), p) {
        if p in at && p != [] {
          var q := StoredBelow(p);
        } else if q :| q in Entries() && p <= q {
          PrefixClosed(p, q);
        }
      }
    }

    /** Disposes of all children of the root; the root's own payload stays. */
    method Clear()
      requires Shape()
      modifies `at, at.Values`children, at.Values`order
      ensures Valid() && at.Keys == {[]} && at[[]] == old(at[[]])
      ensures Entries() == map p | p in old(Entries()) && p == [] :: old(Entries())[p]
    {
      ghost var _ := NodeOk([]);
      root.children, root.order := map[], [];
      at := map[[] := root];
    }
  }
}
