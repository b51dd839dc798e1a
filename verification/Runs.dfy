/** Whole runs of the mutable objects: whatever is asked of them, one call after another. */
module Runs {
  import opened Sequences
  import opened PolicyTrie
  import B = BoundedMap
  import CC = CertificateCache
  import V = Validation
  import R = ValidationRuns
  import K = Keychain

  // The trie with its policy

  /** The plain longest match is the one whose test is `Any`. */
  datatype Command<K, !P> =
    | Insert(key: seq<K>, payload: P)
    | Erase(key: seq<K>)
    | Modify(key: seq<K>, mod: P -> P)
    | FindExact(key: seq<K>)
    | LongestPrefixMatch(key: seq<K>, pred: P -> bool)
    | DeepestPrefixMatch(key: seq<K>)
    | DeepestPrefixMatchIf(key: seq<K>, pred: P -> bool)

  type Op<K, P> = B.Op<seq<K>, P>

  /** With the entries `m`, the command `c` comes to the operation `op`. */
  ghost predicate Does<K(!new), P(!new)>(m: map<seq<K>, P>, c: Command<K, P>, op: Op<K, P>) {
    match c
    case Insert(key, payload) => op == B.PutOp(key, payload)
    case Erase(key) => op == B.EraseOp(key)
    case Modify(key, mod) => op == if key in m then B.ModifyOp(key, mod(m[key])) else B.MissOp
    case FindExact(_) => op == B.MissOp
    case LongestPrefixMatch(key, pred) => LooksUpLongest(m, key, pred, op)
    case DeepestPrefixMatch(key) => LooksUpDeepest(m, key, op)
    case DeepestPrefixMatchIf(key, pred) => LooksUpBelow(m, key, pred, op)
  }

  ghost predicate LooksUpLongest<K(!new), P(!new)>(m: map<seq<K>, P>, key: seq<K>, pred: P -> bool, op: Op<K, P>) {
    if forall q :: !Reportable(m, key, pred, q) then op == B.MissOp
    else op.LookupOp? && LongestIn(m, key, pred, op.key)
  }

  /** The key itself, or else its longest stored prefix, or else some extension; but nothing if none extends it. */
  ghost predicate LooksUpDeepest<K(!new), P(!new)>(m: map<seq<K>, P>, key: seq<K>, op: Op<K, P>) {
    if !HasExtension(m, key) then op == B.MissOp
    else
      && op.LookupOp? && op.key in m
      && if key in m then op.key == key
         else if HasProperPrefix(m, key) then LongestIn(m, key, Any, op.key)
         else key <= op.key
  }

  ghost predicate LooksUpBelow<K(!new), P(!new)>(m: map<seq<K>, P>, key: seq<K>, pred: P -> bool, op: Op<K, P>) {
    if forall q | q in m && key <= q :: !pred(m[q]) then op == B.MissOp
    else op.LookupOp? && op.key in m && key <= op.key && pred(m[op.key])
  }

  /** A deepest match for the empty key needs something stored. */
  ghost predicate Defined<K(!new), P(!new)>(m: map<seq<K>, P>, c: Command<K, P>) {
    c.DeepestPrefixMatch? && c.key == [] ==> m != map[]
  }

  /** One command makes one step of the bounded map: the one it stands for. */
  method Perform<K(==,!new), P(!new)>(t: PolicyTrie<K, P>, c: Command<K, P>) returns (ghost op: Op<K, P>)
    requires t.Valid() && Defined(t.State().entries, c)
    modifies t, t.trie, t.trie.at.Values
    ensures t.Valid() && t.maxSize == old(t.maxSize) && fresh(t.trie.at.Values - old(t.trie.at.Values))
    ensures t.State() == B.Apply(t.policy, t.maxSize, old(t.State()), op)
    ensures Does(old(t.State()).entries, c, op)
  {
    match c
    case Insert(key, payload) =>
      var _, _ := t.Insert(key, payload);
      op := B.PutOp(key, payload);
    case Erase(key) =>
      t.Erase(key);
      op := B.EraseOp(key);
    case Modify(key, mod) =>
      op := Change(t, key, mod);
    case FindExact(key) =>
      var _ := t.FindExact(key);
      op := B.MissOp;
    case LongestPrefixMatch(key, pred) =>
      op := MatchLongest(t, key, pred);
    case DeepestPrefixMatch(key) =>
      op := MatchDeepest(t, key);
    case DeepestPrefixMatchIf(key, pred) =>
      op := MatchBelow(t, key, pred);
  }

  /** Finds the key and modifies its node. */
  method Change<K(==,!new), P(!new)>(t: PolicyTrie<K, P>, key: seq<K>, mod: P -> P) returns (ghost op: Op<K, P>)
    requires t.Valid()
    modifies t`list, t.trie.at.Values`payload
    ensures t.Valid() && t.State() == B.Apply(t.policy, t.maxSize, old(t.State()), op)
    ensures var m := old(t.State()).entries; op == if key in m then B.ModifyOp(key, mod(m[key])) else B.MissOp
  {
    var node := t.FindExact(key);
    op := if node == null then B.MissOp else B.ModifyOp(key, mod(t.State().entries[key]));
    var _ := t.Modify(node, mod);
  }

  method MatchLongest<K(==,!new), P(!new)>(t: PolicyTrie<K, P>, key: seq<K>, pred: P -> bool)
    returns (ghost op: Op<K, P>)
    requires t.Valid()
    modifies t`list
    ensures t.Valid() && t.State() == B.Apply(t.policy, t.maxSize, old(t.State()), op)
    ensures LooksUpLongest(old(t.State()).entries, key, pred, op)
  {
    var found := t.LongestPrefixMatchIf(key, pred);
    t.LongestHitIsLongest(found, key, pred);
    op := if found == null then B.MissOp else B.LookupOp(found.path);
  }

  method MatchDeepest<K(==,!new), P(!new)>(t: PolicyTrie<K, P>, key: seq<K>) returns (ghost op: Op<K, P>)
    requires t.Valid() && (key == [] ==> t.State().entries != map[])
    modifies t`list
    ensures t.Valid() && t.State() == B.Apply(t.policy, t.maxSize, old(t.State()), op)
    ensures LooksUpDeepest(old(t.State()).entries, key, op)
  {
    ghost var m := t.State().entries;
    var found := t.DeepestPrefixMatch(key);
    op := if found == null then B.MissOp else B.LookupOp(found.path);
    if found != null && !(key <= found.path) {
      t.LongestHitIsLongest(found, key, Any);
    }
  }

  method MatchBelow<K(==,!new), P(!new)>(t: PolicyTrie<K, P>, key: seq<K>, pred: P -> bool)
    returns (ghost op: Op<K, P>)
    requires t.Valid()
    modifies t`list
    ensures t.Valid() && t.State() == B.Apply(t.policy, t.maxSize, old(t.State()), op)
    ensures LooksUpBelow(old(t.State()).entries, key, pred, op)
  {
    var found := t.DeepestPrefixMatchIf(key, pred);
    op := if found == null then B.MissOp else B.LookupOp(found.path);
  }

  /** `ops` is what the commands `cs` come to, one after another, on an empty container. */
  ghost predicate Follows<K(!new), P(!new)>(policy: B.Policy, limit: nat, cs: seq<Command<K, P>>, ops: seq<Op<K, P>>) {
    |ops| == |cs| && forall i | 0 <= i < |cs| :: Does(B.Run(policy, limit, ops[..i]).entries, cs[i], ops[i])
  }

  lemma FollowsOn<K(!new), P(!new)>(policy: B.Policy, limit: nat, cs: seq<Command<K, P>>, ops: seq<Op<K, P>>,
                                    op: Op<K, P>)
    requires cs != [] && Follows(policy, limit, Up(cs), ops)
    requires Does(B.Run(policy, limit, ops).entries, cs[|cs| - 1], op)
    ensures Follows(policy, limit, cs, ops + [op])
    ensures Up(ops + [op]) == ops
  {
    var all := ops + [op];
    forall i | 0 <= i < |cs| ensures Does(B.Run(policy, limit, all[..i]).entries, cs[i], all[i]) {
      if i == |cs| - 1 {
        assert all[..i] == ops;
      } else {
        assert all[..i] == ops[..i] && Up(cs)[i] == cs[i];
        assert Does(B.Run(policy, limit, ops[..i]).entries, Up(cs)[i], ops[i]);
      }
    }
  }

  /** Whatever the commands before have come to, each command is defined when its turn comes. */
  ghost predicate AllDefined<K(!new), P(!new)>(policy: B.Policy, limit: nat, cs: seq<Command<K, P>>)
    decreases |cs|
  {
    cs == [] ||
    (&& AllDefined(policy, limit, Up(cs))
     && forall ops | Follows(policy, limit, Up(cs), ops) :: Defined(B.Run(policy, limit, ops).entries, cs[|cs| - 1]))
  }

  /** After every run, payloads and list are in the state that the commands come to, consistent and within the limit. */
  method RunTrie<K(==,!new), P(!new)>(policy: B.Policy, limit: nat, rootKey: K, cs: seq<Command<K, P>>)
    returns (t: PolicyTrie<K, P>, ghost ops: seq<Op<K, P>>)
    requires AllDefined(policy, limit, cs)
    ensures fresh(t) && fresh(t.trie) && fresh(t.trie.at.Values)
    ensures t.Valid() && t.policy == policy && t.maxSize == limit
    ensures Follows(policy, limit, cs, ops) && t.State() == B.Run(policy, limit, ops)
    ensures B.Consistent(t.State()) && (limit != 0 ==> |t.State().entries| <= limit)
    decreases |cs|
  {
    if cs == [] {
      t := new PolicyTrie(policy, rootKey);
      t.maxSize := limit;
      ops := [];
    } else {
      t, ops := RunTrie(policy, limit, rootKey, Up(cs));
      ghost var op := Perform(t, cs[|cs| - 1]);
      FollowsOn(policy, limit, cs, ops, op);
      ops := ops + [op];
    }
    B.RunIsConsistent(policy, limit, ops);
  }

  /** After any commands, inserting a new key into a full Lru trie drops the key whose last use is longest ago. */
  method RunAndEvict<K(==,!new), P(!new)>(limit: nat, rootKey: K, cs: seq<Command<K, P>>, key: seq<K>, payload: P)
    returns (t: PolicyTrie<K, P>, ghost ops: seq<Op<K, P>>, ghost victim: seq<K>)
    requires AllDefined(B.Lru, limit, cs)
    ensures t.Valid() && t.policy == B.Lru && t.maxSize == limit && Follows(B.Lru, limit, cs, ops)
    ensures var s := B.Run(B.Lru, limit, ops);
            limit != 0 && |s.entries| == limit && key !in s.entries ==>
              && victim in s.entries && t.State().entries == (s.entries - {victim})[key := payload]
              && forall k | k in s.entries && k != victim ::
                   B.LastUse(B.Lru, limit, ops, victim) < B.LastUse(B.Lru, limit, ops, k)
  {
    t, ops := RunTrie(B.Lru, limit, rootKey, cs);
    victim := InsertEvicting(t, ops, key, payload);
  }

  method InsertEvicting<K(==,!new), P(!new)>(t: PolicyTrie<K, P>, ghost ops: seq<Op<K, P>>, key: seq<K>, payload: P)
    returns (ghost victim: seq<K>)
    requires t.Valid() && t.policy == B.Lru && t.State() == B.Run(B.Lru, t.maxSize, ops)
    modifies t, t.trie, t.trie.at.Values
    ensures t.Valid() && t.maxSize == old(t.maxSize)
    ensures var s, limit := B.Run(B.Lru, old(t.maxSize), ops), old(t.maxSize);
            limit != 0 && |s.entries| == limit && key !in s.entries ==>
              && victim in s.entries && t.State().entries == (s.entries - {victim})[key := payload]
              && forall k | k in s.entries && k != victim ::
                   B.LastUse(B.Lru, limit, ops, victim) < B.LastUse(B.Lru, limit, ops, k)
  {
    ghost var s, limit := t.State(), t.maxSize;
    var _, _ := t.Insert(key, payload);
    victim := [];
    if limit != 0 && |s.entries| == limit && key !in s.entries {
      victim := B.EvictsLeastRecentlyUsed(limit, ops, key, payload);
      B.RunOn(B.Lru, limit, ops, B.PutOp(key, payload));
    }
  }

  // The certificate cache

  method RunCache<N(==,!new), C(!new)>(limit: nat, ops: seq<CC.CacheOp<N, C>>) returns (c: CC.TtlCache<N, C>)
    requires 1 <= limit
    ensures fresh(c) && c.Valid() && c.maxSize == limit && c.State() == CC.CacheRun(limit, ops)
    ensures B.Consistent(c.State()) && |c.State().entries| <= limit
    decreases |ops|
  {
    if ops == [] {
      c := new CC.TtlCache(limit);
    } else {
      c := RunCache(limit, Up(ops));
      match ops[|ops| - 1]
      case Store(n, cached) => c.InsertCertificate(n, cached);
      case Fetch(n) => var _ := c.GetCertificate(n);
      case CleanPass(now) => c.Clean(now);
    }
    CC.CacheStaysBounded(limit, ops);
  }

  // Validation

  /** Whatever happens next, the objects make exactly the protocol's step. */
  method Happen(k: K.Keychain, e: V.Event)
    requires k.Valid()
    modifies k, k.manager.cache
    ensures k.Valid() && k.State() == V.Step(k.manager.pol, old(k.State()), e)
  {
    match e
    case Start(p, step) =>
      k.Start(p, step);
    case Deliver(i, p) =>
      if i < |k.requests| {
        k.OnData(i, p);
      }
    case Timeout(i) =>
      if i < |k.requests| {
        k.OnCertificateInterestTimeout(i);
      }
    case RunTask(i, now) =>
      if i < |k.tasks| {
        k.RunCallback(i, now);
      }
    case CleanPass(now) =>
      k.Clean(now);
  }

  /** After every run of the objects, what was verified is trusted and every run had at most one outcome. */
  method RunKeychain(pol: V.Policy, es: seq<V.Event>) returns (k: K.Keychain)
    requires 1 <= pol.cacheSize
    ensures fresh(k) && fresh(k.manager.cache) && k.Valid() && k.manager.pol == pol
    ensures k.State() == V.Reach(pol, es)
    ensures forall o | o in k.outcomes && o.ok :: V.Trusted(pol, k.accepted, o.packet)
    ensures forall r | 0 <= r < |k.starts| :: R.Count(k.outcomes, R.OutcomeRun, r) <= 1
    decreases |es|
  {
    if es == [] {
      k := new K.Keychain(pol);
    } else {
      k := RunKeychain(pol, Up(es));
      Happen(k, es[|es| - 1]);
    }
    V.OnlyTrustedIsVerified(pol, es);
    forall r | 0 <= r < |k.starts| ensures R.Count(k.outcomes, R.OutcomeRun, r) <= 1 {
      R.OneOutcomePerRun(pol, es, r);
    }
  }
}
