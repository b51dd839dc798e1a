/** The keychain and its policy manager as objects; every method is one step of the validation protocol. */
module Keychain {
  import opened Sequences
  import B = BoundedMap
  import CC = CertificateCache
  import V = Validation

  /** Some rule of the list matches the packet. */
  method AnyMatches(rules: seq<V.Rule>, p: V.Packet) returns (b: bool)
    ensures b <==> exists i | 0 <= i < |rules| :: rules[i].matches(p)
  {
    var i := 0;
    while i < |rules|
      invariant 0 <= i <= |rules|
      invariant forall j | 0 <= j < i :: !rules[j].matches(p)
    {
      if rules[i].matches(p) {
        return true;
      }
      i := i + 1;
    }
    b := false;
  }

  /** Some rule of the list is satisfied by the packet. */
  method AnySatisfied(rules: seq<V.Rule>, p: V.Packet) returns (b: bool)
    ensures b <==> exists i | 0 <= i < |rules| :: rules[i].satisfies(p)
  {
    var i := 0;
    while i < |rules|
      invariant 0 <= i <= |rules|
      invariant forall j | 0 <= j < i :: !rules[j].satisfies(p)
    {
      if rules[i].satisfies(p) {
        return true;
      }
      i := i + 1;
    }
    b := false;
  }

  class SimplePolicyManager {
    const pol: V.Policy
    const cache: CC.TtlCache<V.Name, V.Packet>

    constructor (pol: V.Policy)
      requires 1 <= pol.cacheSize
      ensures this.pol == pol && fresh(cache) && cache.Valid() && cache.maxSize == pol.cacheSize
      ensures cache.State() == B.State(map[], [])
    {
      this.pol := pol;
      cache := new CC.TtlCache(pol.cacheSize);
    }

    method RequireVerify(p: V.Packet) returns (b: bool)
      ensures b <==> || (exists i | 0 <= i < |pol.verify| :: pol.verify[i].matches(p))
                     || (exists i | 0 <= i < |pol.mustFail| :: pol.mustFail[i].matches(p))
      ensures b <==> V.RequireVerify(pol, p)
    {
      b := AnyMatches(pol.verify, p);
      if !b {
        b := AnyMatches(pol.mustFail, p);
      }
    }

    method SkipVerifyAndTrust(p: V.Packet) returns (b: bool)
      ensures b <==> exists i | 0 <= i < |pol.exempt| :: pol.exempt[i](p)
      ensures b <==> V.IsExempt(pol, p)
    {
      var i := 0;
      while i < |pol.exempt|
        invariant 0 <= i <= |pol.exempt|
        invariant forall j | 0 <= j < i :: !pol.exempt[j](p)
      {
        if pol.exempt[i](p) {
          return true;
        }
        i := i + 1;
      }
      b := false;
    }

    /** Looks for the certificate that the packet names, first among the anchors and then in the cache. */
    method CheckSigner(p: V.Packet, n: V.Name) returns (v: V.Verdict)
      requires cache.Valid()
      modifies cache
      ensures cache.Valid()
      ensures v == if n in pol.anchors then V.Report(pol.signs(pol.anchors[n], p))
                   else if n in old(cache.State()).entries then
                     V.Touched(pol.signs(old(cache.State()).entries[n].cert, p), n)
                   else V.Fetch(n)
      ensures cache.State() == if v.Touched? then B.Touch(B.Lru, old(cache.State()), n) else old(cache.State())
    {
      if n in pol.anchors {
        return V.Report(pol.signs(pol.anchors[n], p));
      }
      var cert := cache.GetCertificate(n);
      if cert.None? {
        v := V.Fetch(n);
      } else {
        v := V.Touched(pol.signs(cert.value, p), n);
      }
    }

    /** Within the limit, no must-fail rule is satisfied, some positive rule is, and the packet names a key. */
    ghost predicate PassesAll(p: V.Packet, step: int) {
      && step != pol.stepLimit
      && (forall i | 0 <= i < |pol.mustFail| :: !pol.mustFail[i].satisfies(p))
      && (exists i | 0 <= i < |pol.verify| :: pol.verify[i].satisfies(p))
      && pol.keyName(p).Some?
    }

    /** The key that the packet names belongs to an anchor, or else to a cached certificate, that signs it. */
    ghost predicate SignedAtHand(cached: map<V.Name, CC.Cached<V.Packet>>, p: V.Packet)
      requires pol.keyName(p).Some?
    {
      var n := pol.keyName(p).value;
      if n in pol.anchors then pol.signs(pol.anchors[n], p) else n in cached && pol.signs(cached[n].cert, p)
    }

    method CheckVerificationPolicy(p: V.Packet, step: int) returns (v: V.Verdict)
      requires cache.Valid() && V.RequireVerify(pol, p)
      modifies cache
      ensures cache.Valid()
      ensures v == V.Judge(pol, old(cache.State()).entries, p, step)
      ensures var m := old(cache.State()).entries;
              && (!v.Fetch? && v.ok <==> PassesAll(p, step) && SignedAtHand(m, p))
              && (v.Fetch? <==>
                  PassesAll(p, step) && pol.keyName(p).value !in pol.anchors && pol.keyName(p).value !in m)
              && (v.Fetch? ==> v.name == pol.keyName(p).value)
      ensures cache.State() == if v.Touched? then B.Touch(B.Lru, old(cache.State()), v.name) else old(cache.State())
    {
      if pol.stepLimit == step {
        return V.Report(false);
      }
      var failed := AnySatisfied(pol.mustFail, p);
      if failed {
        return V.Report(false);
      }
      var passed := AnySatisfied(pol.verify, p);
      if !passed || pol.keyName(p).None? {
        return V.Report(false);
      }
      v := CheckSigner(p, pol.keyName(p).value);
    }
  }

  /** The keychain with what it has sent and what waits in the executor. */
  class Keychain {
    const manager: SimplePolicyManager
    var requests: seq<V.Request>
    var tasks: seq<V.Task>
    var outcomes: seq<V.Outcome>
    var drops: seq<V.Drop>
    ghost var accepted: V.Log
    var starts: seq<int>
    ghost var sent: multiset<nat>
    ghost var certs: multiset<nat>

    ghost predicate Valid()
      reads this, manager.cache
    {
      manager.cache.Valid() && manager.cache.maxSize == manager.pol.cacheSize
    }

    ghost function State(): V.State
      reads this, manager.cache
    {
      V.State(manager.cache.State(), requests, tasks, outcomes, drops, accepted, starts, sent, certs)
    }

    constructor (pol: V.Policy)
      requires 1 <= pol.cacheSize
      ensures Valid() && manager.pol == pol && State() == V.Initial && fresh(manager.cache)
    {
      manager := new SimplePolicyManager(pol);
      requests, tasks, outcomes, drops := [], [], [], [];
      accepted, starts, sent, certs := {}, [], multiset{}, multiset{};
    }

    method VerifyData(p: V.Packet, k: V.Cont, step: int)
      requires Valid()
      modifies this, manager.cache
      ensures Valid() && State() == V.VerifyData(manager.pol, old(State()), p, k, step)
    {
      var require := manager.RequireVerify(p);
      var v: V.Verdict;
      if require {
        v := manager.CheckVerificationPolicy(p, step);
      } else {
        var skip := manager.SkipVerifyAndTrust(p);
        v := V.Report(skip);
      }
      match v
      case Report(ok) =>
        tasks := tasks + [V.Task(ok, p, k)];
      case Touched(ok, n) =>
        tasks := tasks + [V.Task(ok, p, k)];
      case Fetch(n) =>
        certs := certs + multiset{V.RunOf(k)};
        SendInterest(V.Request(p, n, 3, step + 1, k));
    }

    method SendInterest(r: V.Request)
      modifies this`requests, this`sent
      ensures requests == old(requests) + [r] && sent == old(sent) + multiset{V.RunOf(r.k)}
    {
      requests, sent := requests + [r], sent + multiset{V.RunOf(r.k)};
    }

    /** The application asks for a packet to be verified. */
    method Start(p: V.Packet, step: int)
      requires Valid()
      modifies this, manager.cache
      ensures Valid() && State() == V.Step(manager.pol, old(State()), V.Start(p, step))
    {
      var run := |starts|;
      starts := starts + [step];
      VerifyData(p, V.App(run), step);
    }

    method TakeRequest(i: nat) returns (r: V.Request)
      requires i < |requests|
      modifies this`requests
      ensures r == old(requests)[i] && requests == V.RemoveAt(old(requests), i)
    {
      r := requests[i];
      requests := V.RemoveAt(requests, i);
    }

    /** An Interest is answered. */
    method OnData(i: nat, p: V.Packet)
      requires Valid() && i < |requests|
      modifies this, manager.cache
      ensures Valid() && State() == V.Step(manager.pol, old(State()), V.Deliver(i, p))
    {
      var r := TakeRequest(i);
      VerifyData(p, V.Signs(r.data, r.k), r.step);
    }

    method OnCertificateInterestTimeout(i: nat)
      requires Valid() && i < |requests|
      modifies this
      ensures Valid() && State() == V.Step(manager.pol, old(State()), V.Timeout(i))
    {
      var r := TakeRequest(i);
      if r.retry > 0 {
        SendInterest(r.(retry := r.retry - 1));
      } else {
        tasks := tasks + [V.Task(false, r.data, r.k)];
      }
    }

    method AcceptCertificate(cert: V.Packet, now: int)
      requires Valid()
      modifies this`accepted, manager.cache
      ensures Valid() && State() == V.Accept(manager.pol, old(State()), cert, now)
    {
      var cached := CC.Cached(cert, now + manager.pol.freshness(cert));
      manager.cache.InsertCertificate(V.CacheName(cert), cached);
      accepted := accepted + {(cert, now)};
    }

    /** A verified certificate comes back for the packet that it is to sign. */
    method OnCertificateVerified(cert: V.Packet, data: V.Packet, up: V.Cont, now: int)
      requires Valid()
      modifies this, manager.cache
      ensures Valid()
      ensures State() == V.Callback(manager.pol, old(State()), V.Task(true, cert, V.Signs(data, up)), now)
    {
      var pol := manager.pol;
      if !pol.decodes(cert) {
        drops := drops + [V.Drop(V.RunOf(up), cert, data, now)];
        return;
      }
      if !pol.inDate(cert, now) {
        tasks := tasks + [V.Task(false, data, up)];
        return;
      }
      AcceptCertificate(cert, now);
      if pol.signs(cert, data) {
        tasks := tasks + [V.Task(true, data, up)];
      } else {
        drops := drops + [V.Drop(V.RunOf(up), cert, data, now)];
      }
    }

    /** The executor runs one of the callbacks that wait in it. */
    method RunCallback(i: nat, now: int)
      requires Valid() && i < |tasks|
      modifies this, manager.cache
      ensures Valid() && State() == V.Step(manager.pol, old(State()), V.RunTask(i, now))
    {
      var t := tasks[i];
      tasks := V.RemoveAt(tasks, i);
      match t.k
      case App(r) =>
        outcomes := outcomes + [V.Outcome(r, t.ok, t.packet)];
      case Signs(data, up) =>
        if t.ok {
          OnCertificateVerified(t.packet, data, up, now);
        } else {
          tasks := tasks + [V.Task(false, data, up)];
        }
    }

    /** The cache's cleaner makes one pass. */
    method Clean(now: int)
      requires Valid()
      modifies manager.cache
      ensures Valid() && State() == V.Step(manager.pol, old(State()), V.CleanPass(now))
    {
      manager.cache.Clean(now);
      assert State() == old(State()).(cache := CC.Cleaned(old(manager.cache.State()), now));
    }
  }
}
