/** `clear_if`: a preorder sweep that restarts from an ancestor whenever pruning removes nodes under it. */
module TrieSweep {
  import opened Sequences
  import opened NameTrie

  type Orders<K(==)> = map<seq<K>, seq<K>>

  ghost predicate TreeOrders<K(!new)>(ord: Orders<K>) {
    && [] in ord
    && (forall p {:trigger ord[p]} | p in ord :: NoDup(ord[p]))
    && (forall p, k {:trigger k in ord[p]} | p in ord && k in ord[p] :: p + [k] in ord)
    && (forall p {:trigger Up(p)} | p in ord && p != [] :: Up(p) in ord && p[|p| - 1] in ord[Up(p)])
  }

  /** `q` comes after `p` and everything below `p` in preorder. */
  ghost predicate Later<K(!new)>(ord: Orders<K>, p: seq<K>, q: seq<K>)
    decreases |p|
  {
    p != [] && Up(p) in ord &&
    ((Up(p) < q && Precedes(ord[Up(p)], p[|p| - 1], q[|p| - 1])) || Later(ord, Up(p), q))
  }

  /** `q` is what a cursor standing on `p` has still to visit. */
  ghost predicate Pending<K(!new)>(ord: Orders<K>, p: seq<K>, q: seq<K>) {
    p <= q || Later(ord, p, q)
  }

  lemma {:induction false} NotLaterBelow<K(!new)>(ord: Orders<K>, p: seq<K>, q: seq<K>)
    requires TreeOrders(ord) && p in ord && p <= q
    ensures !Later(ord, p, q)
    decreases |p|
  {
    if p == [] {
    } else {
      NotLaterBelow(ord, Up(p), q);
    }
  }

  lemma {:induction false} NotLaterAbove<K(!new)>(ord: Orders<K>, p: seq<K>, a: seq<K>)
    requires TreeOrders(ord) && p in ord && a <= p
    ensures !Later(ord, p, a)
    decreases |p|
  {
    if a == p {
      NotLaterBelow(ord, p, a);
    } else {
      PrefixUp(a, p);
      NotLaterAbove(ord, Up(p), a);
    }
  }

  /** What is pending for a node is pending for each of its ancestors. */
  lemma {:induction false} PendingUp<K(!new)>(ord: Orders<K>, p: seq<K>, a: seq<K>, q: seq<K>)
    requires a <= p && Pending(ord, p, q)
    ensures Pending(ord, a, q)
    decreases |p|
  {
    if a == p {
    } else {
      PrefixUp(a, p);
      assert Up(p) <= p;
      PendingUp(ord, Up(p), a, q);
    }
  }

  /** `Later` looks only at the nodes above. */
  lemma {:induction false} LaterAgree<K(!new)>(ord: Orders<K>, ord': Orders<K>, p: seq<K>, q: seq<K>)
    requires Later(ord, p, q)
    requires forall u | u < p && u in ord :: u in ord' && ord'[u] == ord[u]
    ensures Later(ord', p, q)
    decreases |p|
  {
    if !(Up(p) < q && Precedes(ord[Up(p)], p[|p| - 1], q[|p| - 1])) {
      assert Up(p) <= p;
      LaterAgree(ord, ord', Up(p), q);
    }
  }

  lemma {:induction false} ChildTowards<K(!new)>(ord: Orders<K>, u: seq<K>, q: seq<K>)
    requires TreeOrders(ord) && q in ord && u < q
    ensures u in ord && q[|u|] in ord[u]
    decreases |q|
  {
    if Up(q) == u {
    } else {
      PrefixUp(u, q);
      ChildTowards(ord, u, Up(q));
    }
  }

  /** First child: everything pending but the node itself stays pending. */
  lemma DownStep<K(!new)>(ord: Orders<K>, p: seq<K>, q: seq<K>)
    requires TreeOrders(ord) && p in ord && ord[p] != [] && q in ord
    ensures Pending(ord, p + [ord[p][0]], q) <==> Pending(ord, p, q) && q != p
  {
    var first := p + [ord[p][0]];
    assert Up(first) == p && p <= first;
    NotLaterBelow(ord, p, p);
    if p < q {
      ChildTowards(ord, p, q);
      var i :| 0 <= i < |ord[p]| && ord[p][i] == q[|p|];
      if i == 0 {
        assert first <= q;
      }
    }
  }

  lemma ConsecutivePrecedes<T>(s: seq<T>, i: nat, x: T)
    requires NoDup(s) && i < |s| && x in s
    ensures Precedes(s, s[i], x) <==> i + 1 < |s| && (x == s[i + 1] || Precedes(s, s[i + 1], x))
  {
    if Precedes(s, s[i], x) {
      var a, b :| 0 <= a < b < |s| && s[a] == s[i] && s[b] == x;
      assert a == i;
    }
    if i + 1 < |s| && x == s[i + 1] {
      assert Precedes(s, s[i], x);
    } else if i + 1 < |s| && Precedes(s, s[i + 1], x) {
      var a, b :| 0 <= a < b < |s| && s[a] == s[i + 1] && s[b] == x;
      assert a == i + 1;
      assert s[i] == s[i] && s[b] == x;
    }
  }

  /** Next sibling, or no sibling left. */
  lemma SideStep<K(!new)>(ord: Orders<K>, u: seq<K>, i: nat, q: seq<K>)
    requires TreeOrders(ord) && u in ord && i < |ord[u]| && q in ord
    ensures Later(ord, u + [ord[u][i]], q) <==>
            if i + 1 < |ord[u]| then Pending(ord, u + [ord[u][i + 1]], q) else Later(ord, u, q)
  {
    var s := ord[u];
    var p := u + [s[i]];
    assert Up(p) == u;
    if i + 1 < |s| {
      var p' := u + [s[i + 1]];
      assert Up(p') == u;
      assert p' <= q <==> u < q && q[|u|] == s[i + 1];
    }
    if u < q {
      ChildTowards(ord, u, q);
      ConsecutivePrecedes(s, i, q[|u|]);
    }
  }

  lemma OrdersOfTree<K(!new), P(!new)>(t: Trie<K, P>)
    requires t.Shape()
    ensures TreeOrders(t.Orders())
  {
    forall p | p in t.at ensures t.NodeOk(p) {
    }
  }

  /** `next` is where a cursor on `p` goes when the paths in `rest` are what is left to visit. */
  ghost predicate Follows<K(!new), P(!new)>(t: Trie<K, P>, next: Node?<K, P>, rest: set<seq<K>>)
    reads t, t.at.Values
  {
    if next == null then rest == {}
    else
      && next.path in t.at && t.at[next.path] == next
      && rest == set q | q in t.at && Pending(t.Orders(), next.path, q)
  }

  /** The iterator's `goUp`: the next sibling of the nearest ancestor-or-self that has one. */
  method GoUp<K(==,!new), P(!new)>(t: Trie<K, P>, node: Node<K, P>) returns (next: Node?<K, P>)
    requires t.Shape()
    requires node.path in t.at && t.at[node.path] == node
    ensures Follows(t, next, set q | q in t.at && Later(t.Orders(), node.path, q))
    decreases |node.path|
  {
    ghost var ord := t.Orders();
    OrdersOfTree(t);
    ghost var _ := t.NodeOk(node.path);
    if node.parent == null {
      return null;
    }
    var parent := node.parent;
    ghost var u := Up(node.path);
    ghost var _ := t.NodeOk(u);
    assert node.key in parent.order;
    var i :| 0 <= i < |parent.order| && parent.order[i] == node.key;
    forall q | q in t.at
      ensures Later(ord, node.path, q) <==>
              if i + 1 < |ord[u]| then Pending(ord, u + [ord[u][i + 1]], q) else Later(ord, u, q)
    {
      SideStep(ord, u, i, q);
    }
    if i + 1 < |parent.order| {
      assert parent.order[i + 1] in parent.order;
      next := parent.children[parent.order[i + 1]];
      ghost var _ := t.NodeOk(u + [parent.order[i + 1]]);
    } else {
      next := GoUp(t, parent);
      assert (set q | q in t.at && Later(ord, node.path, q)) == set q | q in t.at && Later(ord, u, q);
    }
  }

  /** The iterator's `++`. */
  method Next<K(==,!new), P(!new)>(t: Trie<K, P>, node: Node<K, P>, ghost todo: set<seq<K>>)
    returns (next: Node?<K, P>)
    requires t.Shape() && Follows(t, node, todo)
    ensures node.path in todo
    ensures Follows(t, next, todo - {node.path})
  {
    ghost var ord, p := t.Orders(), node.path;
    OrdersOfTree(t);
    ghost var _ := t.NodeOk(p);
    if |node.children| > 0 {
      assert exists k :: k in node.children;
      var first := node.order[0];
      assert first in node.order;
      next := node.children[first];
      ghost var _ := t.NodeOk(p + [first]);
      forall q | q in t.at ensures Pending(ord, p + [first], q) <==> Pending(ord, p, q) && q != p {
        DownStep(ord, p, q);
      }
    } else {
      next := GoUp(t, node);
      forall q | q in t.at ensures Later(ord, p, q) <==> Pending(ord, p, q) && q != p {
        if p < q {
          ChildTowards(ord, p, q);
        }
        NotLaterBelow(ord, p, p);
      }
      assert (set q | q in t.at && Later(ord, p, q)) == todo - {p};
    }
  }

  /** Sending the cursor back to an ancestor skips nothing that was pending and re-opens no skipped ancestor. */
  lemma SweepBack<K(!new)>(ord: Orders<K>, ord': Orders<K>, p: seq<K>, a: seq<K>)
    requires TreeOrders(ord) && p in ord && a <= p
    requires forall u | u < a && u in ord :: u in ord' && ord'[u] == ord[u]
    ensures forall q | Pending(ord, p, q) :: Pending(ord', a, q)
    ensures a != p ==> !Pending(ord, p, a)
  {
    forall q | Pending(ord, p, q) ensures Pending(ord', a, q) {
      PendingUp(ord, p, a, q);
      if !(a <= q) {
        LaterAgree(ord, ord', a, q);
      }
    }
    NotLaterAbove(ord, p, a);
  }

  /** The entries kept so far are those of `m` that fail `cond` or are still to be visited. */
  ghost predicate Swept<K(!new), P(!new)>(m: map<seq<K>, P>, now: map<seq<K>, P>, cond: Option<P> -> bool,
                                          todo: set<seq<K>>)
  {
    && now.Keys <= m.Keys
    && (forall p | p in now :: now[p] == m[p] && (p in todo || !cond(Some(m[p]))))
    && (forall p | p in m && p !in now :: cond(Some(m[p])))
  }

  /** Erasing a satisfying entry at `p` and going back to `a` keeps the account of what has been swept. */
  lemma SweptErase<K(!new), P(!new)>(m: map<seq<K>, P>, was: map<seq<K>, P>, now: map<seq<K>, P>,
                                     cond: Option<P> -> bool, todo: set<seq<K>>, todo': set<seq<K>>,
                                     p: seq<K>, a: seq<K>)
    requires Swept(m, was, cond, todo) && now == was - {p} && (p in was ==> cond(Some(was[p])))
    requires forall q | q in now && q in todo :: q in todo'
    requires a != p ==> a !in todo
    ensures Swept(m, now, cond, todo' - {a})
  {
    forall q | q in m && q !in now ensures cond(Some(m[q])) {
      assert q in was ==> q == p;
    }
    forall q | q in now ensures q in todo' - {a} || !cond(Some(m[q])) {
      assert q in was && q != p;
    }
  }

  /** One turn of the sweep on a node that satisfies the condition: erase it, and go on from where pruning stopped. */
  method EraseAt<K(==,!new), P(!new)>(t: Trie<K, P>, node: Node<K, P>, cond: Option<P> -> bool,
                                      ghost m: map<seq<K>, P>, ghost todo: set<seq<K>>)
    returns (cursor: Node<K, P>, ghost todo': set<seq<K>>)
    requires t.Valid() && cond(node.payload)
    requires Follows(t, node, todo) && Swept(m, t.Entries(), cond, todo)
    modifies t, t.at.Values
    ensures t.Valid() && t.at.Keys <= old(t.at.Keys) && t.at.Values <= old(t.at.Values)
    ensures t.at.Keys == old(t.at.Keys) ==> todo' == todo
    ensures Follows(t, cursor, todo') && Swept(m, t.Entries(), cond, todo' - {cursor.path})
  {
    ghost var ord, p, was := t.Orders(), node.path, t.Entries();
    OrdersOfTree(t);
    cursor := t.Erase(node);
    ghost var ord', a, now := t.Orders(), cursor.path, t.Entries();
    todo' := set q | q in t.at && Pending(ord', a, q);
    SweepBack(ord, ord', p, a);
    if t.at.Keys == old(t.at.Keys) {
      assert a == p;
      assert ord' == ord;
    }
    SweptErase(m, was, now, cond, todo, todo', p, a);
  }

  /** The cursor's node is erased or, when it fails the condition, left as it is. */
  method Visit<K(==,!new), P(!new)>(t: Trie<K, P>, node: Node<K, P>, cond: Option<P> -> bool,
                                    ghost m: map<seq<K>, P>, ghost todo: set<seq<K>>)
    returns (cursor: Node<K, P>, ghost todo': set<seq<K>>)
    requires t.Valid() && Follows(t, node, todo) && Swept(m, t.Entries(), cond, todo)
    modifies t, t.at.Values
    ensures t.Valid() && t.at.Keys <= old(t.at.Keys) && t.at.Values <= old(t.at.Values)
    ensures t.at.Keys == old(t.at.Keys) ==> todo' == todo
    ensures Follows(t, cursor, todo') && Swept(m, t.Entries(), cond, todo' - {cursor.path})
  {
    if cond(node.payload) {
      cursor, todo' := EraseAt(t, node, cond, m, todo);
    } else {
      cursor, todo' := node, todo;
    }
  }

  /** One turn of the sweep; `todo` is what is left to visit. */
  method SweepOn<K(==,!new), P(!new)>(t: Trie<K, P>, node: Node<K, P>, cond: Option<P> -> bool,
                                      ghost m: map<seq<K>, P>, ghost todo: set<seq<K>>)
    returns (next: Node?<K, P>, ghost todo': set<seq<K>>)
    requires t.Valid() && Follows(t, node, todo) && Swept(m, t.Entries(), cond, todo)
    modifies t, t.at.Values
    ensures t.Valid() && t.at.Values <= old(t.at.Values)
    ensures Follows(t, next, todo') && Swept(m, t.Entries(), cond, todo')
    ensures |t.at.Keys| < |old(t.at.Keys)| || (|t.at.Keys| == |old(t.at.Keys)| && |todo'| < |todo|)
  {
    ghost var keys := t.at.Keys;
    ghost var visited;
    var cursor;
    cursor, visited := Visit(t, node, cond, m, todo);
    next := Advance(t, cursor, keys, todo, visited);
    todo' := visited - {cursor.path};
  }

  /** Goes on from the cursor; there are fewer nodes than before or less is left to visit. */
  method Advance<K(==,!new), P(!new)>(t: Trie<K, P>, cursor: Node<K, P>, ghost keys: set<seq<K>>,
                                      ghost todo: set<seq<K>>, ghost visited: set<seq<K>>)
    returns (next: Node?<K, P>)
    requires t.Valid() && Follows(t, cursor, visited)
    requires t.at.Keys <= keys && (t.at.Keys == keys ==> visited == todo)
    ensures t.Valid() && t.at == old(t.at) && t.Entries() == old(t.Entries())
    ensures Follows(t, next, visited - {cursor.path})
    ensures |t.at.Keys| < |keys| || (|t.at.Keys| == |keys| && |visited - {cursor.path}| < |todo|)
  {
    next := Next(t, cursor, visited);
    Progress(t.at.Keys, keys, todo, visited, cursor.path);
  }

  lemma Progress<T>(keys: set<T>, before: set<T>, todo: set<T>, visited: set<T>, p: T)
    requires keys <= before && (keys == before ==> visited == todo) && p in visited
    ensures |keys| < |before| || (|keys| == |before| && |visited - {p}| < |todo|)
  {
    SmallerSet(keys, before);
    SmallerSet(visited - {p}, visited);
  }

  /** Keeps exactly the entries whose payload fails `cond`; `cond` is also asked about payload-free nodes. */
  method ClearIf<K(==,!new), P(!new)>(t: Trie<K, P>, cond: Option<P> -> bool)
    requires t.Valid()
    modifies t, t.at.Values
    ensures t.Valid()
    ensures t.Entries() == map p | p in old(t.Entries()) && !cond(Some(old(t.Entries())[p])) :: old(t.Entries())[p]
  {
    ghost var m := t.Entries();
    var node: Node?<K, P> := t.root;
    ghost var _ := t.NodeOk([]);
    ghost var todo := t.at.Keys;
    while node != null
      invariant t.Valid() && t.at.Values <= old(t.at.Values)
      invariant Follows(t, node, todo) && Swept(m, t.Entries(), cond, todo)
      decreases |t.at.Keys|, |todo|
    {
      node, todo := SweepOn(t, node, cond, m, todo);
    }
  }

  lemma {:induction false} SmallerSet<T>(a: set<T>, b: set<T>)
    requires a <= b
    ensures |a| <= |b| && (a != b ==> |a| < |b|)
  {
    if a != {} {
      var x :| x in a;
      SmallerSet(a - {x}, b - {x});
    } else if b != {} {
      var x :| x in b;
      assert |b| == |b - {x}| + 1;
    }
  }
}
