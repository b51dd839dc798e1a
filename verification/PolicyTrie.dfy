module PolicyTrie {
  import opened Sequences
  import opened NameTrie
  import B = BoundedMap

  ghost function Paths<K(!new), P(!new)>(list: seq<Node<K, P>>): (ps: seq<seq<K>>)
    ensures |ps| == |list| && forall i | 0 <= i < |list| :: ps[i] == list[i].path
  {
    seq(|list|, i requires 0 <= i < |list| => list[i].path)
  }

  lemma {:induction false} PathsWithout<K(!new), P(!new)>(list: seq<Node<K, P>>, n: Node<K, P>)
    requires forall m | m in list && m.path == n.path :: m == n
    ensures Paths(Without(list, n)) == Without(Paths(list), n.path)
  {
    if list == [] {
    } else {
      PathsWithout(list[1..], n);
      assert Paths(list)[1..] == Paths(list[1..]);
      PathsCons(list[0], Without(list[1..], n));
    }
  }

  lemma PathsCons<K(!new), P(!new)>(n: Node<K, P>, list: seq<Node<K, P>>)
    ensures Paths([n] + list) == [n.path] + Paths(list)
  {
  }

  /** `list` and `pending` hold the nodes `at` gives to `keys`, `list` without repeats or overlap. */
  ghost predicate Listed<K(!new), P(!new)>(list: seq<Node<K, P>>, pending: set<Node<K, P>>,
                                           at: map<seq<K>, Node<K, P>>, keys: set<seq<K>>)
  {
    && NoDup(list)
    && (forall n | n in list :: n !in pending && n.path in keys && n.path in at && at[n.path] == n)
    && (forall n | n in pending :: n.path in keys && n.path in at && at[n.path] == n)
    && (forall p | p in keys :: p in at && at[p].path == p && (at[p] in list || at[p] in pending))
  }

  /** A node taken off the list is pending until its payload goes. */
  lemma ListedUnlist<K(!new), P(!new)>(list: seq<Node<K, P>>, pending: set<Node<K, P>>, at: map<seq<K>, Node<K, P>>,
                                       keys: set<seq<K>>, node: Node<K, P>)
    requires Listed(list, pending, at, keys) && node in list
    ensures Listed(Without(list, node), pending + {node}, at, keys)
    ensures Paths(Without(list, node)) == Without(Paths(list), node.path)
  {
    PathsWithout(list, node);
    forall p | p in keys ensures at[p] in Without(list, node) || at[p] in pending + {node} {
      assert at[p] in list || at[p] in pending;
    }
  }

  /** A freshly stored node is pending until the policy lists it. */
  lemma ListedPend<K(!new), P(!new)>(list: seq<Node<K, P>>, at: map<seq<K>, Node<K, P>>, keys: set<seq<K>>,
                                     node: Node<K, P>, at': map<seq<K>, Node<K, P>>)
    requires Listed(list, {}, at, keys)
    requires node.path !in keys && node.path in at' && at'[node.path] == node
    requires forall p | p in keys :: p in at' && at'[p] == at[p]
    ensures Listed(list, {node}, at', keys + {node.path})
  {
    forall p | p in keys ensures at'[p].path == p && at'[p] in list {
      assert at[p] in list;
    }
  }

  /** Dropping a pending node. */
  lemma ListedDrop<K(!new), P(!new)>(list: seq<Node<K, P>>, pending: set<Node<K, P>>, at: map<seq<K>, Node<K, P>>,
                                     keys: set<seq<K>>, node: Node<K, P>, at': map<seq<K>, Node<K, P>>)
    requires Listed(list, pending + {node}, at, keys) && node !in pending
    requires forall p | p in keys && p != node.path :: p in at' && at'[p] == at[p]
    ensures Listed(list, pending, at', keys - {node.path})
  {
    forall p | p in keys && p != node.path ensures at'[p].path == p && (at'[p] in list || at'[p] in pending) {
      assert at[p].path == p && (at[p] in list || at[p] in pending + {node});
    }
    assert node in pending + {node};
    forall n | n in list || n in pending ensures n.path != node.path {
      assert n in pending ==> n in pending + {node};
    }
  }

  lemma ListedAppend<K(!new), P(!new)>(list: seq<Node<K, P>>, at: map<seq<K>, Node<K, P>>,
                                       keys: set<seq<K>>, node: Node<K, P>)
    requires Listed(list, {node}, at, keys)
    ensures Listed(list + [node], {}, at, keys)
    ensures Paths(list + [node]) == Paths(list) + [node.path]
  {
    assert forall n | n in list + [node] :: n in list || n == node;
    forall p | p in keys ensures at[p] in list + [node] {
      assert at[p] in list || at[p] == node;
    }
  }

  /** Moving a listed node to the end of the list keeps the same nodes listed. */
  lemma ListedTouch<K(!new), P(!new)>(list: seq<Node<K, P>>, at: map<seq<K>, Node<K, P>>,
                                      keys: set<seq<K>>, node: Node<K, P>)
    requires Listed(list, {}, at, keys) && node in list
    ensures Listed(Without(list, node) + [node], {}, at, keys)
    ensures Paths(Without(list, node) + [node]) == Without(Paths(list), node.path) + [node.path]
  {
    PathsWithout(list, node);
    var rest := Without(list, node);
    forall p | p in keys ensures at[p] in rest || at[p] == node {
      assert at[p] in list;
    }
    assert Listed(rest, {node}, at, keys);
    ListedAppend(rest, at, keys, node);
  }

  /** The test that `find` makes: none. */
  predicate Any<P>(p: P) {
    true
  }

  /** `q` is a stored prefix of `key` that a walk may report; the root is not tested. */
  ghost predicate Reportable<K(!new), P>(m: map<seq<K>, P>, key: seq<K>, pred: P -> bool, q: seq<K>) {
    q in m && q <= key && (q == [] || pred(m[q]))
  }

  ghost predicate LongestIn<K(!new), P>(m: map<seq<K>, P>, key: seq<K>, pred: P -> bool, q: seq<K>) {
    Reportable(m, key, pred, q) && forall p | Reportable(m, key, pred, p) :: |p| <= |q|
  }

  ghost predicate HasExtension<K(!new), P>(m: map<seq<K>, P>, key: seq<K>) {
    exists q :: q in m && key <= q
  }

  ghost predicate HasProperPrefix<K(!new), P>(m: map<seq<K>, P>, key: seq<K>) {
    exists q :: q in m && q < key
  }

  /** A trie whose stored nodes are all on the list of a replacement policy. */
  class PolicyTrie<K(==,!new), P(!new)> {
    const policy: B.Policy
    const trie: Trie<K, P>
    var list: seq<Node<K, P>>
    var maxSize: nat

    /** The list holds every stored node except those in `pending`, once each. */
    ghost predicate Tracks(pending: set<Node<K, P>>)
      reads this, trie, trie.at.Values
    {
      trie.Valid() && Listed(list, pending, trie.at, trie.Entries().Keys)
    }

    ghost predicate Valid()
      reads this, trie, trie.at.Values
    {
      Tracks({})
    }

    ghost function State(): (s: B.State<seq<K>, P>)
      reads this, trie, trie.at.Values
    {
      B.State(trie.Entries(), Paths(list))
    }

    constructor (policy: B.Policy, rootKey: K)
      ensures Valid() && State() == B.State(map[], []) && maxSize == 100 && this.policy == policy
      ensures fresh(trie) && fresh(trie.at.Values)
    {
      var t := new Trie(rootKey);
      this.policy, trie, list, maxSize := policy, t, [], 100;
    }

    method EraseNode(node: Node<K, P>, ghost pending: set<Node<K, P>>)
      requires Tracks(pending)
      requires node in list
      modifies this, trie, trie.at.Values
      ensures Tracks(pending)
      ensures State() == B.Remove(old(State()), node.path)
      ensures trie.at.Values <= old(trie.at.Values)
      ensures maxSize == old(maxSize)
    {
      PolicyErase(node, pending);
      ghost var s := State();
      DropPayload(node, pending);
      assert State() == B.State(s.entries - {node.path}, s.recency);
    }

    /** The policy's `erase`: takes the node off the list. */
    method PolicyErase(node: Node<K, P>, ghost pending: set<Node<K, P>>)
      requires Tracks(pending)
      requires node in list
      modifies `list
      ensures Tracks(pending + {node}) && node !in pending
      ensures State() == B.State(old(State()).entries, Without(old(State()).recency, node.path))
    {
      ghost var was := trie.Entries();
      ListedUnlist(list, pending, trie.at, was.Keys, node);
      list := Without(list, node);
      assert trie.Entries() == was && trie.Valid();
    }

    /** Takes an unlisted node's payload out of the trie. */
    method DropPayload(node: Node<K, P>, ghost pending: set<Node<K, P>>)
      requires Tracks(pending + {node}) && node !in pending
      modifies trie, trie.at.Values
      ensures Tracks(pending)
      ensures State() == B.State(old(State()).entries - {node.path}, old(State()).recency)
      ensures forall p | p in trie.at :: p in old(trie.at) && trie.at[p] == old(trie.at[p])
      ensures trie.at.Values <= old(trie.at.Values)
    {
      ghost var was, at := trie.Entries(), trie.at;
      assert node in pending + {node};
      var _ := trie.Erase(node);
      ghost var now := trie.Entries();
      forall p | p in was && p != node.path ensures p in trie.at && trie.at[p] == at[p] {
        assert p in now;
      }
      ListedDrop(list, pending, at, was.Keys, node, trie.at);
      assert now.Keys == was.Keys - {node.path};
    }

    /** The policy's `insert`: under Lru a full list first evicts through `EraseNode`, with `item` not yet listed. */
    method PolicyInsert(item: Node<K, P>) returns (ok: bool)
      requires Tracks({item})
      modifies this, trie, trie.at.Values
      ensures maxSize == old(maxSize)
      ensures ok <==> policy.Lru? || !B.Full(old(State()), maxSize)
      ensures !ok ==> Tracks({item}) && State() == old(State()) && trie.at == old(trie.at)
      ensures ok ==> item in list
      ensures ok ==> Valid() && State() ==
                                var s := old(State());
                                var t := if B.Full(s, maxSize) then B.Remove(s, s.recency[0]) else s;
                                B.State(t.entries, t.recency + [item.path])
      ensures trie.at.Values <= old(trie.at.Values)
    {
      if maxSize != 0 && |list| >= maxSize {
        if policy.Persistent? {
          return false;
        }
        EraseNode(list[0], {item});
      }
      PushBack(item);
      ok := true;
    }

    /** Puts a stored but unlisted node at the end of the list. */
    method PushBack(item: Node<K, P>)
      requires Tracks({item})
      modifies `list
      ensures Valid() && item in list
      ensures State() == B.State(old(State()).entries, old(State()).recency + [item.path])
    {
      ghost var was := trie.Entries();
      ListedAppend(list, trie.at, was.Keys, item);
      list := list + [item];
      assert trie.Entries() == was && trie.Valid();
    }

    /** Stores the payload in the trie, the policy not yet told. */
    method Place(key: seq<K>, payload: P) returns (node: Node<K, P>, isNew: bool)
      requires Valid()
      modifies trie, trie.at.Values
      ensures isNew <==> key !in old(State()).entries
      ensures node.path == key && key in trie.at && trie.at[key] == node
      ensures !isNew ==> Valid() && State() == old(State())
      ensures isNew ==> Tracks({node}) && State() == B.State(old(State()).entries[key := payload], old(State()).recency)
      ensures trie.Grown(old(trie.at), trie.at, key)
      ensures fresh(trie.at.Values - old(trie.at.Values))
    {
      ghost var was, at := trie.Entries(), trie.at;
      node, isNew := trie.Insert(key, payload);
      ghost var now := trie.Entries();
      ghost var _ := trie.NodeOk(key);
      if isNew {
        ListedPend(list, at, was.Keys, node, trie.at);
        assert now.Keys == was.Keys + {key};
      } else {
        assert forall p | p in was :: trie.at[p] == at[p];
        assert Listed(list, {}, trie.at, was.Keys);
      }
    }

    /** Lists the placed node, or takes it out again when the policy refuses it. */
    method Settle(node: Node<K, P>, payload: P, ghost s0: B.State<seq<K>, P>, ghost at0: map<seq<K>, Node<K, P>>)
      returns (ok: bool)
      requires Tracks({node})
      requires State() == B.State(s0.entries[node.path := payload], s0.recency)
      requires node.path !in s0.entries && forall p | p in s0.recency :: p in s0.entries
      requires trie.Grown(at0, trie.at, node.path) && forall p :: p in at0 <==> Spanned(s0.entries, p)
      modifies this, trie, trie.at.Values
      ensures Valid() && maxSize == old(maxSize)
      ensures State() == B.Insert(policy, maxSize, s0, node.path, payload)
      ensures ok <==> policy.Lru? || !B.Full(s0, maxSize)
      ensures ok ==> node in list
      ensures !ok ==> trie.at == at0
      ensures trie.at.Values <= old(trie.at.Values)
    {
      ok := PolicyInsert(node);
      if ok {
        InsertedMeans(s0, node.path, payload);
      } else {
        assert {} + {node} == {node};
        DropPayload(node, {});
        B.StoreThenDrop(s0.entries, node.path, payload);
        trie.NodesFromEntries();
        GrownBack(at0, s0.entries);
      }
    }

    /** A trie that has the nodes for `m` again, all of them old, is the old trie. */
    lemma GrownBack(at0: map<seq<K>, Node<K, P>>, m: map<seq<K>, P>)
      requires forall p :: p in at0 <==> Spanned(m, p)
      requires forall p :: p in trie.at <==> Spanned(m, p)
      requires forall p | p in trie.at && p in at0 :: trie.at[p] == at0[p]
      ensures trie.at == at0
    {
    }

    lemma InsertedMeans(s0: B.State<seq<K>, P>, key: seq<K>, payload: P)
      requires key !in s0.entries && forall p | p in s0.recency :: p in s0.entries
      ensures var s := B.State(s0.entries[key := payload], s0.recency);
              var t := if B.Full(s, maxSize) then B.Remove(s, s.recency[0]) else s;
              policy.Lru? || !B.Full(s0, maxSize) ==>
                B.State(t.entries, t.recency + [key]) == B.Insert(policy, maxSize, s0, key, payload)
    {
      if B.Full(s0, maxSize) {
        B.EvictCommutes(s0, key, payload, s0.recency[0]);
      }
    }

    method Insert(key: seq<K>, payload: P) returns (node: Node?<K, P>, inserted: bool)
      requires Valid()
      modifies this, trie, trie.at.Values
      ensures Valid() && maxSize == old(maxSize)
      ensures State() == B.Insert(policy, maxSize, old(State()), key, payload)
      ensures inserted <==> key !in old(State()).entries && (policy.Lru? || !B.Full(old(State()), maxSize))
      ensures node == null <==> key !in old(State()).entries && !inserted
      ensures node != null ==> key in trie.at && trie.at[key] == node
      ensures inserted ==> key in trie.Entries() && trie.Entries()[key] == payload
      ensures !inserted ==> trie.Entries() == old(trie.Entries())
      ensures node == null ==> trie.at == old(trie.at)
      ensures fresh(trie.at.Values - old(trie.at.Values))
    {
      ghost var s0, at0 := State(), trie.at;
      assert forall n | n in list :: n.path in s0.entries;
      trie.NodesFromEntries();
      var n, isNew := Place(key, payload);
      if !isNew {
        return n, false;
      }
      var ok := Settle(n, payload, s0, at0);
      node, inserted := if ok then n else null, ok;
    }

    method Erase(key: seq<K>)
      requires Valid()
      modifies this, trie, trie.at.Values
      ensures Valid() && maxSize == old(maxSize)
      ensures State() == B.Remove(old(State()), key)
      ensures trie.Entries() == old(trie.Entries()) - {key}
      ensures trie.at.Values <= old(trie.at.Values)
    {
      var node := FindExact(key);
      if node == null {
        assert trie.Entries() - {key} == trie.Entries();
        WithoutAbsent(State().recency, key);
        return;
      }
      EraseNode(node, {});
    }

    method FindExact(key: seq<K>) returns (node: Node?<K, P>)
      requires Valid()
      ensures node == null <==> key !in State().entries
      ensures node != null ==> node in list && node.path == key && key in trie.at && trie.at[key] == node
      ensures key !in State().entries ==> key !in State().recency
    {
      var _, reachLast, last := trie.FindIf(key, Any);
      assert forall n | n in list :: n.path in State().entries;
      if !reachLast || last.payload.None? {
        return null;
      }
      assert key in State().entries;
      node := last;
    }

    /** The policy's `lookup` and `update`: under Lru the node becomes the most recent one. */
    method PolicyTouch(node: Node<K, P>)
      requires Valid() && node in list
      modifies `list
      ensures Valid()
      ensures State() == B.Touch(policy, old(State()), node.path)
    {
      if policy.Lru? {
        ghost var was := trie.Entries();
        ListedTouch(list, trie.at, was.Keys, node);
        assert node.path in was;
        list := Without(list, node) + [node];
        assert trie.Entries() == was && trie.Valid();
      }
    }

    method Modify(node: Node?<K, P>, mod: P -> P) returns (ok: bool)
      requires Valid()
      requires node == null || (node.path in trie.at && trie.at[node.path] == node)
      modifies `list, trie.at.Values`payload
      ensures Valid()
      ensures ok <==> node != null && node.path in old(State()).entries
      ensures State() ==
              if ok then B.Modify(policy, old(State()), node.path, mod(old(State()).entries[node.path]))
              else old(State())
      ensures ok ==> trie.Entries() == old(trie.Entries())[node.path := mod(old(trie.Entries())[node.path])]
    {
      if node == null || node.payload.None? {
        return false;
      }
      ghost var was := trie.Entries();
      assert node.path in was;
      trie.SetPayload(node, Some(mod(node.payload.value)));
      assert trie.Entries().Keys == was.Keys;
      PolicyTouch(node);
      ok := true;
    }

    method LongestPrefixMatchIf(key: seq<K>, pred: P -> bool) returns (found: Node?<K, P>)
      requires Valid()
      modifies `list
      ensures Valid()
      ensures trie.LongestHit(found, key, |key|, pred)
      ensures State() == if found == null then old(State()) else B.Touch(policy, old(State()), found.path)
    {
      var reachLast, last;
      found, reachLast, last := trie.FindIf(key, pred);
      if found != null {
        assert found.path in State().entries;
        PolicyTouch(found);
      }
    }

    lemma LongestHitMeans(found: Node?<K, P>, key: seq<K>)
      requires trie.LongestHit(found, key, |key|, Any)
      ensures found == null ==> key !in State().entries && !HasProperPrefix(State().entries, key)
      ensures found != null ==>
                (key <= found.path <==> key in State().entries || !HasProperPrefix(State().entries, key))
    {
      assert key[..|key|] == key;
      assert key in State().entries ==> trie.Hit(key, |key|, Any);
      if found == null {
        forall q | q <= key ensures q !in State().entries {
          assert key[..|q|] == q && !trie.Hit(key, |q|, Any);
        }
      } else if key !in State().entries {
        assert found.path in State().entries && found.path < key;
      }
    }

    /** What the walk finds is the longest reportable key. */
    lemma LongestHitIsLongest(found: Node?<K, P>, key: seq<K>, pred: P -> bool)
      requires trie.LongestHit(found, key, |key|, pred)
      ensures var m := State().entries;
              if found == null then forall p :: !Reportable(m, key, pred, p) else LongestIn(m, key, pred, found.path)
    {
      var m := State().entries;
      forall p | Reportable(m, key, pred, p) ensures found != null && |p| <= |found.path| {
        assert key[..|p|] == p && trie.Hit(key, |p|, pred);
      }
    }

    /** The search of `DeepestPrefixMatch`, before the policy is told. */
    method DeepestNode(key: seq<K>) returns (found: Node?<K, P>)
      requires Valid()
      requires key != [] || State().entries != map[]
      ensures found == null <==> !HasExtension(State().entries, key)
      ensures found != null ==> found.path in State().entries && trie.at[found.path] == found
      ensures found != null ==>
                (key <= found.path <==> key in State().entries || !HasProperPrefix(State().entries, key))
      ensures found != null && !(key <= found.path) ==> trie.LongestHit(found, key, |key|, Any)
      ensures key in State().entries ==> found != null && found.path == key
    {
      var longest, reachLast, last := trie.FindIf(key, Any);
      ReachedMeans(key, reachLast);
      if !reachLast {
        return null;
      }
      LongestHitMeans(longest, key);
      if longest == null {
        found := trie.FindBelow(last, Any);
        assert found != null;
      } else {
        found := longest;
      }
    }

    /** The walk reaches a key exactly when some stored key extends it. */
    lemma ReachedMeans(key: seq<K>, reached: bool)
      requires Valid() && (key != [] || State().entries != map[])
      requires reached <==> key in trie.at
      ensures reached <==> HasExtension(State().entries, key)
    {
      trie.NodesFromEntries();
      if key == [] {
        var q :| q in State().entries;
        assert key <= q;
      }
    }

    /**
     * The answer extends `key` exactly when a stored extension exists and no proper prefix of `key`
     * stands in its way; a stored proper prefix is returned in place of the extension unless `key` is stored.
     */
    method DeepestPrefixMatch(key: seq<K>) returns (found: Node?<K, P>)
      requires Valid()
      requires key != [] || State().entries != map[]
      modifies `list
      ensures Valid()
      ensures found == null <==> !HasExtension(old(State()).entries, key)
      ensures found != null ==> found.path in old(State()).entries && trie.at[found.path] == found
      ensures found != null ==>
                (key <= found.path <==>
                 key in old(State()).entries || !HasProperPrefix(old(State()).entries, key))
      ensures found != null && !(key <= found.path) ==> trie.LongestHit(found, key, |key|, Any)
      ensures key in old(State()).entries ==> found != null && found.path == key
      ensures State() == if found == null then old(State()) else B.Touch(policy, old(State()), found.path)
    {
      ghost var s := State();
      found := DeepestNode(key);
      assert State() == s;
      if found != null {
        PolicyTouch(found);
      }
    }

    method DeepestPrefixMatchIf(key: seq<K>, pred: P -> bool) returns (found: Node?<K, P>)
      requires Valid()
      modifies `list
      ensures Valid()
      ensures found == null ==> forall q | q in old(State()).entries && key <= q :: !pred(old(State()).entries[q])
      ensures found != null ==>
                && key <= found.path && found.path in old(State()).entries && trie.at[found.path] == found
                && pred(old(State()).entries[found.path])
      ensures State() == if found == null then old(State()) else B.Touch(policy, old(State()), found.path)
    {
      ghost var s := State();
      found := DeepestNodeIf(key, pred);
      assert State() == s;
      if found != null {
        PolicyTouch(found);
      }
    }

    /** The search of `DeepestPrefixMatchIf`, before the policy is told. */
    method DeepestNodeIf(key: seq<K>, pred: P -> bool) returns (found: Node?<K, P>)
      requires Valid()
      ensures found == null ==> forall q | q in State().entries && key <= q :: !pred(State().entries[q])
      ensures found != null ==>
                && key <= found.path && found.path in State().entries && trie.at[found.path] == found
                && pred(State().entries[found.path])
      ensures found != null ==> found in list
    {
      var longest, reachLast, last := trie.FindIf(key, Any);
      if !reachLast {
        trie.NodesFromEntries();
        assert forall q | q in State().entries && key <= q :: Spanned(State().entries, key);
        return null;
      }
      found := trie.FindBelow(last, pred);
    }

    /** The root's payload survives, unlisted, so the invariant survives exactly when the empty key is absent. */
    method Clear()
      requires Valid()
      modifies `list, trie, trie.at.Values
      ensures list == [] && trie.Valid()
      ensures trie.Entries() == map p | p in old(trie.Entries()) && p == [] :: old(trie.Entries())[p]
      ensures Valid() <==> [] !in old(State()).entries
    {
      list := [];
      trie.Clear();
    }
  }

  lemma PrefixAndExtension(m: map<string, int>)
    requires m == map["a" := 1, "abc" := 2]
    ensures HasProperPrefix(m, "ab") && HasExtension(m, "ab") && "ab" !in m
    ensures forall p | p in m && !("ab" <= p) :: p == "a"
  {
    assert "a" in m && "a" < "ab";
    assert "abc" in m && "ab" <= "abc";
  }

  lemma FirstInsert(key: string, value: int)
    ensures B.Insert(B.Lru, 100, B.State(map[], []), key, value) == B.State(map[key := value], [key])
  {
  }

  lemma RootOnly(m: map<string, int>)
    requires m == map["" := 1]
    ensures (map p | p in m && p == [] :: m[p]) == m && "" in m
  {
  }

  /** With /a and /a/b/c stored, the deepest match for /a/b is /a although /a/b/c extends /a/b. */
  method DeepestMatchCanBeShallow() returns (found: Node?<char, int>)
    ensures found != null && found.path == "a" && !("ab" <= found.path)
  {
    var t := new PolicyTrie(B.Lru, ' ');
    var n, ok := t.Insert("a", 1);
    FirstInsert("a", 1);
    n, ok := t.Insert("abc", 2);
    PrefixAndExtension(t.State().entries);
    found := t.DeepestPrefixMatch("ab");
  }

  /** With a payload stored under the empty key, clearing leaves it in the trie and takes it off the list. */
  method ClearCanLeaveTheRoot() returns (t: PolicyTrie<char, int>)
    ensures t.trie.Entries() == map["" := 1] && t.list == [] && !t.Valid()
  {
    t := new PolicyTrie(B.Lru, ' ');
    var _, _ := t.Insert("", 1);
    FirstInsert("", 1);
    RootOnly(t.State().entries);
    t.Clear();
  }
}
