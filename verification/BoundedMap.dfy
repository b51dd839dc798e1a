/** What the policy-controlled trie is meant to be: a map with a size limit and an order of use. */
module BoundedMap {
  import opened Sequences

  datatype Policy = Lru | Persistent

  /** `recency` lists the keys of `entries`, the one to be evicted first at the front. */
  datatype State<K, P> = State(entries: map<K, P>, recency: seq<K>)

  ghost predicate Consistent<K(!new), P>(s: State<K, P>) {
    NoDup(s.recency) && forall k :: k in s.recency <==> k in s.entries
  }

  function Remove<K(==), P>(s: State<K, P>, key: K): State<K, P> {
    State(s.entries - {key}, Without(s.recency, key))
  }

  function Touch<K(==), P>(policy: Policy, s: State<K, P>, key: K): State<K, P> {
    if policy.Lru? && key in s.entries then s.(recency := Without(s.recency, key) + [key]) else s
  }

  function Append<K(==), P>(s: State<K, P>, key: K, value: P): State<K, P> {
    State(s.entries[key := value], s.recency + [key])
  }

  predicate Full<K, P>(s: State<K, P>, limit: nat) {
    limit != 0 && |s.recency| >= limit
  }

  function Insert<K(==), P>(policy: Policy, limit: nat, s: State<K, P>, key: K, value: P): State<K, P> {
    if key in s.entries then s
    else if !Full(s, limit) then Append(s, key, value)
    else if policy.Persistent? then s
    else Append(Remove(s, s.recency[0]), key, value)
  }

  function Modify<K(==), P>(policy: Policy, s: State<K, P>, key: K, value: P): State<K, P> {
    if key in s.entries then Touch(policy, s.(entries := s.entries[key := value]), key) else s
  }

  lemma StoreThenDrop<K, P>(m: map<K, P>, key: K, value: P)
    requires key !in m
    ensures m[key := value] - {key} == m
  {
  }

  /** Storing before evicting, as the policy does, is evicting before storing. */
  lemma EvictCommutes<K, P>(s: State<K, P>, key: K, value: P, victim: K)
    requires key != victim
    ensures var t := Remove(s.(entries := s.entries[key := value]), victim);
            State(t.entries, t.recency + [key]) == Append(Remove(s, victim), key, value)
  {
    assert s.entries[key := value] - {victim} == (s.entries - {victim})[key := value];
  }

  // Runs

  /** `MissOp` is a lookup that finds nothing. */
  datatype Op<K, P> =
    | PutOp(key: K, value: P)
    | EraseOp(key: K)
    | ModifyOp(key: K, value: P)
    | LookupOp(key: K)
    | MissOp

  function Apply<K(==), P>(policy: Policy, limit: nat, s: State<K, P>, op: Op<K, P>): State<K, P> {
    match op
    case PutOp(k, v) => Insert(policy, limit, s, k, v)
    case EraseOp(k) => Remove(s, k)
    case ModifyOp(k, v) => Modify(policy, s, k, v)
    case LookupOp(k) => Touch(policy, s, k)
    case MissOp => s
  }

  /** The state after the operations `ops` on an empty container. */
  function Run<K(==), P>(policy: Policy, limit: nat, ops: seq<Op<K, P>>): State<K, P> {
    if ops == [] then State(map[], []) else Apply(policy, limit, Run(policy, limit, Up(ops)), ops[|ops| - 1])
  }

  /** Every run keeps list and map on the same keys, each listed once, within the limit. */
  lemma {:induction false} RunIsConsistent<K(!new), P>(policy: Policy, limit: nat, ops: seq<Op<K, P>>)
    ensures var s := Run(policy, limit, ops);
            && Consistent(s)
            && |s.entries| == |s.recency|
            && (limit != 0 ==> |s.entries| <= limit)
  {
    if ops == [] {
    } else {
      var s := Run(policy, limit, Up(ops));
      RunIsConsistent(policy, limit, Up(ops));
      ApplyConsistent(policy, limit, s, ops[|ops| - 1]);
    }
    var t := Run(policy, limit, ops);
    if ops != [] {
      SizeOfConsistent(t);
    }
  }

  lemma SizeOfConsistent<K(!new), P>(s: State<K, P>)
    requires Consistent(s)
    ensures |s.entries| == |s.recency|
  {
    NoDupSize(s.recency, s.entries.Keys);
  }

  lemma {:induction false} NoDupSize<T(!new)>(s: seq<T>, elements: set<T>)
    requires NoDup(s) && forall x :: x in s <==> x in elements
    ensures |elements| == |s|
  {
    if s == [] {
      assert elements == {};
    } else {
      assert elements == {s[0]} + (elements - {s[0]});
      NoDupSize(s[1..], elements - {s[0]});
    }
  }

  lemma ApplyConsistent<K(!new), P>(policy: Policy, limit: nat, s: State<K, P>, op: Op<K, P>)
    requires Consistent(s) && (limit != 0 ==> |s.recency| <= limit)
    ensures Consistent(Apply(policy, limit, s, op))
    ensures limit != 0 ==> |Apply(policy, limit, s, op).recency| <= limit
  {
    match op
    case PutOp(k, v) =>
      if k !in s.entries && Full(s, limit) && policy.Lru? {
        WithoutLength(s.recency, s.recency[0]);
      }
    case EraseOp(k) =>
      WithoutLength(s.recency, k);
    case ModifyOp(k, v) =>
      if k in s.entries {
        WithoutLength(s.recency, k);
      }
    case LookupOp(k) =>
      if k in s.entries {
        WithoutLength(s.recency, k);
      }
    case MissOp =>
  }

  /** The operation `op` on state `s` uses key `k`: it stores it anew, or it modifies or looks up a stored `k`. */
  predicate Uses<K(==), P>(policy: Policy, limit: nat, s: State<K, P>, op: Op<K, P>, k: K) {
    match op
    case PutOp(key, v) => key == k && k !in s.entries && k in Insert(policy, limit, s, key, v).entries
    case EraseOp(_) => false
    case ModifyOp(key, _) => key == k && k in s.entries
    case LookupOp(key) => key == k && k in s.entries
    case MissOp => false
  }

  /** The index of the last operation of the run that used `k`, or -1. */
  function LastUse<K(==), P>(policy: Policy, limit: nat, ops: seq<Op<K, P>>, k: K): (i: int)
    ensures -1 <= i < |ops|
  {
    if ops == [] then -1
    else if Uses(policy, limit, Run(policy, limit, Up(ops)), ops[|ops| - 1], k) then |ops| - 1
    else LastUse(policy, limit, Up(ops), k)
  }

  ghost predicate Increasing<T(!new)>(s: seq<T>, f: T -> int) {
    forall i, j | 0 <= i < j < |s| :: f(s[i]) < f(s[j])
  }

  lemma {:induction false} WithoutIncreasing<T(!new)>(s: seq<T>, x: T, f: T -> int)
    requires Increasing(s, f)
    ensures Increasing(Without(s, x), f)
  {
    if s == [] {
    } else {
      WithoutIncreasing(s[1..], x, f);
      forall y | y in Without(s[1..], x) ensures f(s[0]) < f(y) {
        var j :| 0 <= j < |s[1..]| && s[1..][j] == y;
        assert s[j + 1] == y;
      }
    }
  }

  lemma IncreasingTransfer<T(!new)>(s: seq<T>, f: T -> int, g: T -> int)
    requires Increasing(s, f) && forall x | x in s :: g(x) == f(x)
    ensures Increasing(s, g)
  {
  }

  lemma IncreasingAppend<T(!new)>(s: seq<T>, x: T, f: T -> int, g: T -> int)
    requires Increasing(s, f) && forall y | y in s :: g(y) == f(y) && f(y) < g(x)
    ensures Increasing(s + [x], g)
  {
  }

  /** Under Lru the list orders the stored keys by the time of their last use. */
  lemma {:induction false} RecencyIsLastUse<K(!new), P>(limit: nat, ops: seq<Op<K, P>>)
    ensures Increasing(Run(Lru, limit, ops).recency, k => LastUse(Lru, limit, ops, k))
    ensures forall k | k in Run(Lru, limit, ops).recency :: 0 <= LastUse(Lru, limit, ops, k)
  {
    if ops == [] {
    } else {
      RunIsConsistent(Lru, limit, Up(ops));
      RecencyIsLastUse(limit, Up(ops));
      LastUseStep(limit, ops);
    }
  }

  lemma LastUseStep<K(!new), P>(limit: nat, ops: seq<Op<K, P>>)
    requires ops != []
    requires Consistent(Run(Lru, limit, Up(ops)))
    requires Increasing(Run(Lru, limit, Up(ops)).recency, k => LastUse(Lru, limit, Up(ops), k))
    requires forall k | k in Run(Lru, limit, Up(ops)).recency :: 0 <= LastUse(Lru, limit, Up(ops), k)
    ensures Increasing(Run(Lru, limit, ops).recency, k => LastUse(Lru, limit, ops, k))
    ensures forall k | k in Run(Lru, limit, ops).recency :: 0 <= LastUse(Lru, limit, ops, k)
  {
    var f, g := k => LastUse(Lru, limit, Up(ops), k), k => LastUse(Lru, limit, ops, k);
    StampStep(limit, Run(Lru, limit, Up(ops)), ops[|ops| - 1], f, g, |ops| - 1);
  }

  /** One Lru operation at time `now` keeps the list sorted when only the used key gets the new stamp `now`. */
  lemma StampStep<K(!new), P>(limit: nat, s: State<K, P>, op: Op<K, P>, f: K -> int, g: K -> int, now: nat)
    requires Consistent(s) && Increasing(s.recency, f)
    requires forall k | k in s.recency :: 0 <= f(k) < now
    requires forall k :: g(k) == if Uses(Lru, limit, s, op, k) then now else f(k)
    ensures Increasing(Apply(Lru, limit, s, op).recency, g)
    ensures forall k | k in Apply(Lru, limit, s, op).recency :: 0 <= g(k)
  {
    if op.MissOp? || (!op.EraseOp? && !Uses(Lru, limit, s, op, op.key)) {
      IncreasingTransfer(s.recency, f, g);
    } else {
      var dropped := if op.PutOp? && Full(s, limit) then s.recency[0] else op.key;
      var rest := Without(s.recency, dropped);
      RecencyAfter(limit, s, op, dropped);
      WithoutIncreasing(s.recency, dropped, f);
      if op.EraseOp? {
        IncreasingTransfer(rest, f, g);
      } else {
        IncreasingAppend(rest, op.key, f, g);
      }
    }
  }

  /** An operation that uses its key puts it at the end; an erasure takes it out. */
  lemma RecencyAfter<K(!new), P>(limit: nat, s: State<K, P>, op: Op<K, P>, dropped: K)
    requires Consistent(s) && !op.MissOp? && (op.EraseOp? || Uses(Lru, limit, s, op, op.key))
    requires dropped == if op.PutOp? && Full(s, limit) then s.recency[0] else op.key
    ensures Apply(Lru, limit, s, op).recency == Without(s.recency, dropped) + if op.EraseOp? then [] else [op.key]
    ensures op.key !in Without(s.recency, dropped)
  {
    if op.PutOp? && !Full(s, limit) {
      WithoutAbsent(s.recency, op.key);
    }
  }

  /** A full Lru container makes room by dropping exactly the stored key whose last use is longest ago. */
  lemma EvictsLeastRecentlyUsed<K(!new), P>(limit: nat, ops: seq<Op<K, P>>, key: K, value: P) returns (victim: K)
    requires limit != 0 && |Run(Lru, limit, ops).entries| == limit && key !in Run(Lru, limit, ops).entries
    ensures var s := Run(Lru, limit, ops);
            var t := Run(Lru, limit, ops + [PutOp(key, value)]);
            && victim in s.entries
            && t.entries == (s.entries - {victim})[key := value]
            && forall k | k in s.entries && k != victim ::
                 LastUse(Lru, limit, ops, victim) < LastUse(Lru, limit, ops, k)
  {
    var s := Run(Lru, limit, ops);
    RunIsConsistent(Lru, limit, ops);
    RecencyIsLastUse(limit, ops);
    victim := s.recency[0];
    assert Up(ops + [PutOp(key, value)]) == ops;
    forall k | k in s.entries && k != victim
      ensures LastUse(Lru, limit, ops, victim) < LastUse(Lru, limit, ops, k)
    {
      var j :| 0 <= j < |s.recency| && s.recency[j] == k;
    }
  }

  // Values

  /** `op` on `s` writes its value under `k`: a put that finds no `k` and leaves one, or a change of a stored `k`. */
  predicate Writes<K(==), P>(policy: Policy, limit: nat, s: State<K, P>, op: Op<K, P>, k: K) {
    && (op.PutOp? || op.ModifyOp?) && op.key == k
    && (k in s.entries <==> op.ModifyOp?) && k in Apply(policy, limit, s, op).entries
  }

  /** The index of the last operation of the run that wrote under `k`, or -1. */
  function LastWrite<K(==), P>(policy: Policy, limit: nat, ops: seq<Op<K, P>>, k: K): (i: int)
    ensures -1 <= i < |ops|
    ensures i >= 0 ==> (ops[i].PutOp? || ops[i].ModifyOp?) && ops[i].key == k
  {
    if ops == [] then -1
    else if Writes(policy, limit, Run(policy, limit, Up(ops)), ops[|ops| - 1], k) then |ops| - 1
    else LastWrite(policy, limit, Up(ops), k)
  }

  /** In every run each stored key holds the value that was written under it last. */
  lemma {:induction false} StoredIsLastWritten<K(!new), P>(policy: Policy, limit: nat, ops: seq<Op<K, P>>, k: K)
    requires k in Run(policy, limit, ops).entries
    ensures var i := LastWrite(policy, limit, ops, k); i >= 0 && Run(policy, limit, ops).entries[k] == ops[i].value
  {
    var s, op := Run(policy, limit, Up(ops)), ops[|ops| - 1];
    if Writes(policy, limit, s, op, k) {
    } else {
      StoredIsLastWritten(policy, limit, Up(ops), k);
    }
  }

  lemma RunOn<K(!new), P>(policy: Policy, limit: nat, ops: seq<Op<K, P>>, op: Op<K, P>)
    ensures Run(policy, limit, ops + [op]) == Apply(policy, limit, Run(policy, limit, ops), op)
    ensures |Run(policy, limit, ops).recency| == |Run(policy, limit, ops).entries|
  {
    assert Up(ops + [op]) == ops;
    RunIsConsistent(policy, limit, ops);
  }

  /** A put leaves a stored key alone, fills free room, and is refused by a full persistent container. */
  lemma PutAfter<K(!new), P>(policy: Policy, limit: nat, ops: seq<Op<K, P>>, key: K, value: P)
    ensures var m, m' := Run(policy, limit, ops).entries, Run(policy, limit, ops + [PutOp(key, value)]).entries;
            && (key in m ==> m' == m)
            && (key !in m && (limit == 0 || |m| < limit) ==> m' == m[key := value])
            && (key !in m && limit != 0 && |m| == limit && policy.Persistent? ==> m' == m)
  {
    RunOn(policy, limit, ops, PutOp(key, value));
  }

  /** Every other operation changes its own key at most, and only Lru reorders on a use. */
  lemma OthersAfter<K(!new), P>(policy: Policy, limit: nat, ops: seq<Op<K, P>>, op: Op<K, P>)
    requires !op.PutOp?
    ensures var s, t := Run(policy, limit, ops), Run(policy, limit, ops + [op]);
            && t.entries == (if op.EraseOp? then s.entries - {op.key}
                             else if op.ModifyOp? && op.key in s.entries then s.entries[op.key := op.value]
                             else s.entries)
            && (!op.EraseOp? && policy.Persistent? ==> t.recency == s.recency)
  {
    RunOn(policy, limit, ops, op);
  }
}
