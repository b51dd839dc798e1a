/** The TTL certificate cache: a map from names to entries and an LRU list that the entries point into. */
module CertificateCache {
  import opened Sequences
  import B = BoundedMap

  /** A cell of the LRU list; its identity is what a list iterator designates. */
  class Cell<N(!new)> {
    const name: N

    constructor (name: N)
      ensures this.name == name
    {
      this.name := name;
    }
  }

  datatype Cached<C> = Cached(cert: C, expire: int)

  datatype Entry<N(!new), C> = Entry(cached: Cached<C>, cell: Cell<N>)

  ghost function Names<N(!new)>(list: seq<Cell<N>>): (ns: seq<N>)
    ensures |ns| == |list| && forall i | 0 <= i < |list| :: ns[i] == list[i].name
  {
    seq(|list|, i requires 0 <= i < |list| => list[i].name)
  }

  lemma {:induction false} NamesWithout<N(!new)>(list: seq<Cell<N>>, c: Cell<N>)
    requires forall d | d in list && d.name == c.name :: d == c
    ensures Names(Without(list, c)) == Without(Names(list), c.name)
  {
    if list == [] {
    } else {
      NamesWithout(list[1..], c);
      assert Names(list)[1..] == Names(list[1..]);
      NamesCons(list[0], Without(list[1..], c));
    }
  }

  lemma NamesCons<N(!new)>(c: Cell<N>, list: seq<Cell<N>>)
    ensures Names([c] + list) == [c.name] + Names(list)
  {
  }

  /** Storing under a name: an entry already there is replaced and becomes the most recent one. */
  function Put<N(==), C>(limit: nat, s: B.State<N, Cached<C>>, name: N, cached: Cached<C>): B.State<N, Cached<C>> {
    if name in s.entries then B.Modify(B.Lru, s, name, cached) else B.Insert(B.Lru, limit, s, name, cached)
  }

  /** What one pass of the cleaner leaves: the entries that have not expired, in the same order. */
  ghost function Cleaned<N(!new), C>(s: B.State<N, Cached<C>>, now: int): B.State<N, Cached<C>> {
    var kept := map n | n in s.entries && now <= s.entries[n].expire :: s.entries[n];
    B.State(kept, Only(s.recency, kept.Keys))
  }

  /** `cache` and `list` hold the same names, and every entry points at the cell of its own name. */
  ghost predicate Linked<N(!new), C(!new)>(cache: map<N, Entry<N, C>>, list: seq<Cell<N>>) {
    && NoDup(list)
    && (forall n | n in cache :: cache[n].cell in list && cache[n].cell.name == n)
    && (forall c | c in list :: c.name in cache && cache[c.name].cell == c)
  }

  /** The stored certificates, without the pointers into the list. */
  ghost function View<N(!new), C>(cache: map<N, Entry<N, C>>): map<N, Cached<C>> {
    map n | n in cache :: cache[n].cached
  }

  lemma ViewUpdates<N(!new), C>(cache: map<N, Entry<N, C>>, name: N, e: Entry<N, C>)
    ensures View(cache[name := e]) == View(cache)[name := e.cached]
    ensures View(cache - {name}) == View(cache) - {name}
    ensures (cache - {name})[name := e] == cache[name := e]
  {
  }

  lemma LinkedWithout<N(!new), C(!new)>(cache: map<N, Entry<N, C>>, list: seq<Cell<N>>, name: N)
    requires Linked(cache, list) && name in cache
    ensures Linked(cache - {name}, Without(list, cache[name].cell))
    ensures Names(Without(list, cache[name].cell)) == Without(Names(list), name)
  {
    NamesWithout(list, cache[name].cell);
  }

  lemma LinkedAppend<N(!new), C(!new)>(cache: map<N, Entry<N, C>>, list: seq<Cell<N>>, e: Entry<N, C>)
    requires Linked(cache, list) && e.cell.name !in cache
    ensures Linked(cache[e.cell.name := e], list + [e.cell])
    ensures Names(list + [e.cell]) == Names(list) + [e.cell.name]
  {
    assert forall c | c in list + [e.cell] :: c in list || c == e.cell;
    assert e.cell !in list;
  }

  class TtlCache<N(==,!new), C(!new)> {
    const maxSize: nat
    var cache: map<N, Entry<N, C>>
    var lru: seq<Cell<N>>

    ghost predicate Valid()
      reads this
    {
      1 <= maxSize && Linked(cache, lru) && |lru| <= maxSize
    }

    ghost function State(): (s: B.State<N, Cached<C>>)
      reads this
    {
      B.State(View(cache), Names(lru))
    }

    constructor (maxSize: nat)
      requires 1 <= maxSize
      ensures Valid() && State() == B.State(map[], []) && this.maxSize == maxSize
    {
      this.maxSize, cache, lru := maxSize, map[], [];
    }

    method InsertCertificate(name: N, cached: Cached<C>)
      requires Valid()
      modifies this
      ensures Valid()
      ensures State() == Put(maxSize, old(State()), name, cached)
      ensures name in cache && cache[name].cached == cached
    {
      if name in cache {
        MoveToEnd(name, cached);
      } else {
        while |lru| >= maxSize
          invariant Valid() && name !in cache
          invariant |lru| == maxSize ==> State() == old(State())
          invariant |lru| < maxSize ==>
                      State() == if B.Full(old(State()), maxSize) then B.Remove(old(State()), old(State()).recency[0])
                                 else old(State())
        {
          EvictFront();
        }
        var e := new Cell(name);
        LinkedAppend(cache, lru, Entry(cached, e));
        ViewUpdates(cache, name, Entry(cached, e));
        lru := lru + [e];
        cache := cache[name := Entry(cached, e)];
      }
    }

    /** Splices the cell of `name` to the end of the list. */
    method MoveToEnd(name: N, cached: Cached<C>)
      requires Valid() && name in cache
      modifies this
      ensures Valid()
      ensures State() == B.Modify(B.Lru, old(State()), name, cached)
      ensures name in cache && cache[name].cached == cached
    {
      var e := cache[name].cell;
      LinkedWithout(cache, lru, name);
      LinkedAppend(cache - {name}, Without(lru, e), Entry(cached, e));
      WithoutLength(lru, e);
      ViewUpdates(cache, name, Entry(cached, e));
      lru := Without(lru, e) + [e];
      cache := cache[name := Entry(cached, e)];
    }

    method EvictFront()
      requires Valid() && lru != []
      modifies this
      ensures Valid() && |lru| < maxSize && cache.Keys <= old(cache.Keys)
      ensures State() == B.Remove(old(State()), old(State()).recency[0])
    {
      var e := lru[0];
      LinkedWithout(cache, lru, e.name);
      WithoutLength(lru, e);
      assert Without(lru, e) == lru[1..] by {
        assert e !in lru[1..];
        WithoutAbsent(lru[1..], e);
      }
      ViewUpdates(cache, e.name, cache[e.name]);
      cache := cache - {e.name};
      lru := lru[1..];
    }

    method GetCertificate(name: N) returns (r: Option<C>)
      requires Valid()
      modifies this
      ensures Valid()
      ensures r == if name in old(State()).entries then Some(old(State()).entries[name].cert) else None
      ensures r == if name in old(cache) then Some(old(cache)[name].cached.cert) else None
      ensures State() == B.Touch(B.Lru, old(State()), name)
    {
      if name !in cache {
        return None;
      }
      ghost var s := State();
      MoveToEnd(name, cache[name].cached);
      assert s.entries[name := s.entries[name]] == s.entries;
      r := Some(cache[name].cached.cert);
    }

    /** Takes out the entry of `name` and the list cell it points at. */
    method Drop(name: N)
      requires Valid() && name in cache
      modifies this
      ensures Valid() && cache == old(cache) - {name}
      ensures State() == B.Remove(old(State()), name)
    {
      var e := cache[name];
      LinkedWithout(cache, lru, name);
      WithoutLength(lru, e.cell);
      ViewUpdates(cache, name, e);
      lru := Without(lru, e.cell);
      cache := cache - {name};
    }

    /** One pass of the cleaning thread, over the map in any order. */
    method Clean(now: int)
      requires Valid()
      modifies this
      ensures Valid()
      ensures State() == Cleaned(old(State()), now)
      ensures forall n :: n in cache <==> n in old(cache) && !(now > old(cache)[n].cached.expire)
    {
      var todo := cache.Keys;
      ghost var s := State();
      OnlyAll(s.recency, s.entries.Keys);
      while todo != {}
        invariant Valid() && todo <= cache.Keys
        invariant PartlyCleaned(s, now, todo, State().entries)
        invariant State().recency == Only(s.recency, State().entries.Keys)
      {
        var n :| n in todo;
        PartlyCleanedStep(s, now, todo, State().entries, n);
        if now > cache[n].cached.expire {
          OnlyWithout(s.recency, State().entries.Keys, n);
          assert (State().entries - {n}).Keys == State().entries.Keys - {n};
          Drop(n);
        }
        todo := todo - {n};
      }
      CleanedWhenDone(s, now, State().entries);
    }
  }

  /** `view` has lost exactly the expired entries of `s` outside `todo`. */
  ghost predicate PartlyCleaned<N(!new), C>(s: B.State<N, Cached<C>>, now: int, todo: set<N>, view: map<N, Cached<C>>) {
    && view.Keys <= s.entries.Keys
    && (forall n | n in view :: view[n] == s.entries[n])
    && (forall n | n in s.entries && n in todo :: n in view)
    && (forall n | n in s.entries && n !in todo :: n in view <==> now <= s.entries[n].expire)
  }

  lemma PartlyCleanedStep<N(!new), C>(s: B.State<N, Cached<C>>, now: int, todo: set<N>, view: map<N, Cached<C>>, n: N)
    requires PartlyCleaned(s, now, todo, view) && n in todo && n in view
    ensures PartlyCleaned(s, now, todo - {n}, if now > view[n].expire then view - {n} else view)
  {
  }

  lemma CleanedWhenDone<N(!new), C>(s: B.State<N, Cached<C>>, now: int, view: map<N, Cached<C>>)
    requires PartlyCleaned(s, now, {}, view)
    ensures B.State(view, Only(s.recency, view.Keys)) == Cleaned(s, now)
  {
    assert view == Cleaned(s, now).entries;
  }

  // Runs

  datatype CacheOp<N, C> = Store(name: N, cached: Cached<C>) | Fetch(name: N) | CleanPass(now: int)

  ghost function CacheRun<N(!new), C(!new)>(limit: nat, ops: seq<CacheOp<N, C>>): B.State<N, Cached<C>> {
    if ops == [] then B.State(map[], []) else
      var s := CacheRun(limit, Up(ops));
      match ops[|ops| - 1]
      case Store(n, c) => Put(limit, s, n, c)
      case Fetch(n) => B.Touch(B.Lru, s, n)
      case CleanPass(now) => Cleaned(s, now)
  }

  /** A cleaning pass is a run of erasures. */
  lemma CleanIsErasures<N(!new), C(!new)>(limit: nat, bops: seq<B.Op<N, Cached<C>>>, now: int)
    returns (more: seq<B.Op<N, Cached<C>>>)
    ensures B.Run(B.Lru, limit, more) == Cleaned(B.Run(B.Lru, limit, bops), now)
  {
    var s := B.Run(B.Lru, limit, bops);
    B.RunIsConsistent(B.Lru, limit, bops);
    var t, todo := s, s.entries.Keys;
    more := bops;
    OnlyAll(s.recency, s.entries.Keys);
    while todo != {}
      invariant t == B.Run(B.Lru, limit, more)
      invariant PartlyCleaned(s, now, todo, t.entries) && todo <= t.entries.Keys
      invariant t.recency == Only(s.recency, t.entries.Keys)
    {
      var n :| n in todo;
      PartlyCleanedStep(s, now, todo, t.entries, n);
      if now > t.entries[n].expire {
        OnlyWithout(s.recency, t.entries.Keys, n);
        assert (t.entries - {n}).Keys == t.entries.Keys - {n};
        assert Up(more + [B.EraseOp(n)]) == more;
        t, more := B.Remove(t, n), more + [B.EraseOp(n)];
      }
      todo := todo - {n};
    }
    CleanedWhenDone(s, now, t.entries);
  }

  /** Every run of the cache is a run of the bounded Lru map, so what holds of those holds of the cache. */
  lemma {:induction false} CacheRunIsLruRun<N(!new), C(!new)>(limit: nat, ops: seq<CacheOp<N, C>>)
    returns (bops: seq<B.Op<N, Cached<C>>>)
    ensures B.Run(B.Lru, limit, bops) == CacheRun(limit, ops)
  {
    if ops == [] {
      bops := [];
    } else {
      bops := CacheRunIsLruRun(limit, Up(ops));
      match ops[|ops| - 1]
      case Store(n, c) =>
        var op := if n in CacheRun(limit, Up(ops)).entries then B.ModifyOp(n, c) else B.PutOp(n, c);
        assert Up(bops + [op]) == bops;
        bops := bops + [op];
      case Fetch(n) =>
        assert Up(bops + [B.LookupOp(n)]) == bops;
        bops := bops + [B.LookupOp(n)];
      case CleanPass(now) =>
        bops := CleanIsErasures(limit, bops, now);
    }
  }

  /** In every run list and map hold the same names, once each and at most `limit` of them. */
  lemma CacheStaysBounded<N(!new), C(!new)>(limit: nat, ops: seq<CacheOp<N, C>>)
    requires 1 <= limit
    ensures B.Consistent(CacheRun(limit, ops)) && |CacheRun(limit, ops).entries| <= limit
  {
    var bops := CacheRunIsLruRun(limit, ops);
    B.RunIsConsistent(B.Lru, limit, bops);
  }

  /** `op` stores `n`, or fetches it when it is there. */
  ghost predicate UsesName<N(!new), C>(s: B.State<N, Cached<C>>, op: CacheOp<N, C>, n: N) {
    !op.CleanPass? && op.name == n && (op.Fetch? ==> n in s.entries)
  }

  /** The index of the last operation of the run that used `n`, or -1. */
  ghost function LastUse<N(!new), C(!new)>(limit: nat, ops: seq<CacheOp<N, C>>, n: N): (i: int)
    ensures -1 <= i < |ops|
  {
    if ops == [] then -1
    else if UsesName(CacheRun(limit, Up(ops)), ops[|ops| - 1], n) then |ops| - 1
    else LastUse(limit, Up(ops), n)
  }

  lemma {:induction false} OnlyIncreasing<T(!new)>(s: seq<T>, keep: set<T>, f: T -> int)
    requires B.Increasing(s, f)
    ensures B.Increasing(Only(s, keep), f)
  {
    if s == [] {
    } else {
      OnlyIncreasing(s[1..], keep, f);
      forall y | y in Only(s[1..], keep) ensures f(s[0]) < f(y) {
        var j :| 0 <= j < |s[1..]| && s[1..][j] == y;
        assert s[j + 1] == y;
      }
    }
  }

  /** One cache operation at time `now` keeps the list sorted by stamps when the used name gets stamp `now`. */
  lemma CacheStampStep<N(!new), C(!new)>(limit: nat, s: B.State<N, Cached<C>>, op: CacheOp<N, C>,
                                         f: N -> int, g: N -> int, now: nat)
    requires 1 <= limit && B.Consistent(s) && B.Increasing(s.recency, f)
    requires forall n | n in s.recency :: 0 <= f(n) < now
    requires forall n :: g(n) == if UsesName(s, op, n) then now else f(n)
    ensures var t := match op
                     case Store(n, c) => Put(limit, s, n, c)
                     case Fetch(n) => B.Touch(B.Lru, s, n)
                     case CleanPass(c) => Cleaned(s, c);
            B.Increasing(t.recency, g) && forall n | n in t.recency :: 0 <= g(n)
  {
    match op
    case Store(n, c) =>
      var bop := if n in s.entries then B.ModifyOp(n, c) else B.PutOp(n, c);
      B.StampStep(limit, s, bop, f, g, now);
    case Fetch(n) =>
      B.StampStep(limit, s, B.LookupOp(n), f, g, now);
    case CleanPass(c) =>
      OnlyIncreasing(s.recency, Cleaned(s, c).entries.Keys, f);
      B.IncreasingTransfer(Cleaned(s, c).recency, f, g);
  }

  lemma {:induction false} ListIsByLastUse<N(!new), C(!new)>(limit: nat, ops: seq<CacheOp<N, C>>)
    requires 1 <= limit
    ensures B.Increasing(CacheRun(limit, ops).recency, n => LastUse(limit, ops, n))
    ensures forall n | n in CacheRun(limit, ops).recency :: 0 <= LastUse(limit, ops, n)
  {
    if ops == [] {
    } else {
      var f, g := n => LastUse(limit, Up(ops), n), n => LastUse(limit, ops, n);
      ListIsByLastUse(limit, Up(ops));
      CacheStaysBounded(limit, Up(ops));
      CacheStampStep(limit, CacheRun(limit, Up(ops)), ops[|ops| - 1], f, g, |ops| - 1);
    }
  }

  /** Storing a new name in a full cache drops exactly the name whose last use is longest ago. */
  lemma StoreEvictsLeastRecentlyUsed<N(!new), C(!new)>(limit: nat, ops: seq<CacheOp<N, C>>, name: N, cached: Cached<C>)
    returns (victim: N)
    requires 1 <= limit == |CacheRun(limit, ops).entries| && name !in CacheRun(limit, ops).entries
    ensures var s := CacheRun(limit, ops);
            && victim in s.entries
            && CacheRun(limit, ops + [Store(name, cached)]).entries == (s.entries - {victim})[name := cached]
            && forall n | n in s.entries && n != victim :: LastUse(limit, ops, victim) < LastUse(limit, ops, n)
  {
    var s := CacheRun(limit, ops);
    CacheStaysBounded(limit, ops);
    B.SizeOfConsistent(s);
    ListIsByLastUse(limit, ops);
    victim := s.recency[0];
    assert Up(ops + [Store(name, cached)]) == ops;
    forall n | n in s.entries && n != victim ensures LastUse(limit, ops, victim) < LastUse(limit, ops, n) {
      var j :| 0 <= j < |s.recency| && s.recency[j] == n;
    }
  }

  /** The index of the last store under `n`, or -1. */
  function LastStore<N(==), C>(ops: seq<CacheOp<N, C>>, n: N): (i: int)
    ensures -1 <= i < |ops|
    ensures i >= 0 ==> ops[i].Store? && ops[i].name == n
  {
    if ops == [] then -1
    else if ops[|ops| - 1].Store? && ops[|ops| - 1].name == n then |ops| - 1
    else LastStore(Up(ops), n)
  }

  /** In every run a name holds the certificate and the expiry that were stored under it last. */
  lemma {:induction false} CachedIsLastStored<N(!new), C(!new)>(limit: nat, ops: seq<CacheOp<N, C>>, n: N)
    requires n in CacheRun(limit, ops).entries
    ensures var i := LastStore(ops, n); i >= 0 && CacheRun(limit, ops).entries[n] == ops[i].cached
  {
    if ops[|ops| - 1].Store? && ops[|ops| - 1].name == n {
    } else {
      CachedIsLastStored(limit, Up(ops), n);
    }
  }

  /** What the next operation leaves: the stored name, the fetched state, or the entries still valid. */
  lemma CacheAfter<N(!new), C(!new)>(limit: nat, ops: seq<CacheOp<N, C>>, op: CacheOp<N, C>)
    requires 1 <= limit
    ensures var m, t := CacheRun(limit, ops).entries, CacheRun(limit, ops + [op]).entries;
            && (op.Store? ==> op.name in t && t[op.name] == op.cached)
            && (op.Store? && (op.name in m || |m| < limit) ==> t == m[op.name := op.cached])
            && (op.Fetch? ==> t == m)
            && (op.CleanPass? ==> forall n :: n in t <==> n in m && !(op.now > m[n].expire))
            && (op.CleanPass? ==> forall n | n in t :: t[n] == m[n])
  {
    assert Up(ops + [op]) == ops;
    CacheStaysBounded(limit, ops);
    B.SizeOfConsistent(CacheRun(limit, ops));
  }
}
