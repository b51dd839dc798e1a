/** What ends in a verified packet: chains of certificates, followed step by step. */
module ValidationChains {
  import opened Sequences
  import opened Validation
  import B = BoundedMap
  import CC = CertificateCache

  type Store = map<Name, CC.Cached<Packet>>

  /** The state after the events `es` from `s` on. */
  ghost function Steps(pol: Policy, s: State, es: seq<Event>): State
    decreases |es|
  {
    if es == [] then s else Steps(pol, Step(pol, s, es[0]), es[1..])
  }

  lemma {:induction false} ReachSteps(pol: Policy, es: seq<Event>, more: seq<Event>)
    ensures Reach(pol, es + more) == Steps(pol, Reach(pol, es), more)
    decreases |more|
  {
    if more == [] {
      assert es + more == es;
    } else {
      assert Up(es + [more[0]]) == es && es + more == (es + [more[0]]) + more[1..];
      ReachSteps(pol, es + [more[0]], more[1..]);
    }
  }

  lemma {:induction false} StepsConcat(pol: Policy, s: State, a: seq<Event>, b: seq<Event>)
    ensures Steps(pol, s, a + b) == Steps(pol, Steps(pol, s, a), b)
    decreases |a|
  {
    if a == [] {
      assert a + b == b;
    } else {
      assert (a + b)[1..] == a[1..] + b;
      StepsConcat(pol, Step(pol, s, a[0]), a[1..], b);
    }
  }

  // Chains

  /** No certificate has to be asked for: the packet is exempt, or an anchor or a cached certificate signs it. */
  ghost predicate Founded(pol: Policy, cached: Store, p: Packet, step: int) {
    || (!RequireVerify(pol, p) && IsExempt(pol, p))
    || (&& step != pol.stepLimit && PassesRules(pol, p)
        && var n := pol.keyName(p).value;
           if n in pol.anchors then pol.signs(pol.anchors[n], p)
           else n in cached && pol.signs(cached[n].cert, p))
  }

  /** The packet passes the rules and names a certificate not at hand; `cert` signs it and is in date at `now`. */
  ghost predicate Link(pol: Policy, cached: Store, p: Packet, step: int, cert: Packet, now: int) {
    && step != pol.stepLimit && PassesRules(pol, p)
    && pol.keyName(p).value !in pol.anchors && pol.keyName(p).value !in cached
    && pol.decodes(cert) && pol.inDate(cert, now) && pol.signs(cert, p)
  }

  /** Each packet is signed by the next, whose callback runs at the time given with it, and the last is founded. */
  ghost predicate Chain(pol: Policy, cached: Store, chain: seq<Packet>, nows: seq<int>, step: int)
    decreases |chain|
  {
    && |chain| == |nows| > 0
    && if |chain| == 1 then Founded(pol, cached, chain[0], step)
       else
         && Link(pol, cached, chain[0], step, chain[1], nows[1])
         && Chain(pol, cached, chain[1..], nows[1..], step + 1)
  }

  /** Who waits for the last packet of the chain when `k` waits for the first. */
  function Waiter(chain: seq<Packet>, k: Cont): Cont
    requires chain != []
    decreases |chain|
  {
    if |chain| == 1 then k else Signs(chain[|chain| - 2], Waiter(Up(chain), k))
  }

  lemma {:induction false} WaiterDown(chain: seq<Packet>, k: Cont)
    requires |chain| > 1
    ensures Waiter(chain, k) == Waiter(chain[1..], Signs(chain[0], k))
    decreases |chain|
  {
    if |chain| == 2 {
      assert Up(chain) == [chain[0]];
    } else {
      WaiterDown(Up(chain), k);
      assert Up(chain)[1..] == Up(chain[1..]);
    }
  }

  /** The Interests answered one after another, each under number `i`. */
  function Answers(i: nat, certs: seq<Packet>): seq<Event> {
    if certs == [] then [] else [Deliver(i, certs[0])] + Answers(i, certs[1..])
  }

  /** The callbacks run one after another, each under number `i`, at these times from the last to the first. */
  function Callbacks(i: nat, nows: seq<int>): seq<Event> {
    if nows == [] then [] else [RunTask(i, nows[|nows| - 1])] + Callbacks(i, Up(nows))
  }

  // Asking for the certificates

  lemma FoundedReports(pol: Policy, s: State, p: Packet, k: Cont, step: int)
    requires Founded(pol, s.cache.entries, p, step)
    ensures var u := VerifyData(pol, s, p, k, step);
            && u == s.(cache := u.cache, tasks := s.tasks + [Task(true, p, k)])
            && u.cache.entries == s.cache.entries
  {
  }

  lemma LinkAsks(pol: Policy, s: State, p: Packet, k: Cont, step: int, cert: Packet, now: int)
    requires Link(pol, s.cache.entries, p, step, cert, now)
    ensures var u := VerifyData(pol, s, p, k, step);
            && u.requests == s.requests + [Request(p, pol.keyName(p).value, 3, step + 1, k)]
            && u.cache == s.cache && u.tasks == s.tasks && u.outcomes == s.outcomes && u.drops == s.drops
            && u.starts == s.starts
  {
  }

  /** From `s` to `u`, just one task was posted. */
  ghost predicate OnlyPosted(s: State, u: State, t: Task) {
    && u.tasks == s.tasks + [t] && u.requests == s.requests && u.outcomes == s.outcomes && u.drops == s.drops
    && u.starts == s.starts
  }

  lemma AnswerVerifies(pol: Policy, s: State, r: Request, left: seq<Request>, cert: Packet)
    requires s.requests == left + [r]
    ensures Step(pol, s, Deliver(|left|, cert))
            == VerifyData(pol, s.(requests := left), cert, Signs(r.data, r.k), r.step)
  {
    assert RemoveAt(s.requests, |left|) == left;
  }

  /** Answering the Interests of a chain brings the good news about its last packet. */
  lemma {:induction false} ChainIsFetched(pol: Policy, s: State, chain: seq<Packet>, nows: seq<int>, k: Cont, step: int)
    requires Chain(pol, s.cache.entries, chain, nows, step)
    ensures var u := Steps(pol, VerifyData(pol, s, chain[0], k, step), Answers(|s.requests|, chain[1..]));
            OnlyPosted(s, u, Task(true, chain[|chain| - 1], Waiter(chain, k)))
    decreases |chain|
  {
    if |chain| == 1 {
      FoundedReports(pol, s, chain[0], k, step);
    } else {
      var p, cert, v := chain[0], chain[1], VerifyData(pol, s, chain[0], k, step);
      LinkAsks(pol, s, p, k, step, cert, nows[1]);
      var r := v.requests[|s.requests|];
      AnswerVerifies(pol, v, r, s.requests, cert);
      var s' := v.(requests := s.requests);
      ChainIsFetched(pol, s', chain[1..], nows[1..], Signs(p, k), step + 1);
      WaiterDown(chain, k);
      var i := |s.requests|;
      assert Answers(i, chain[1..]) == [Deliver(i, cert)] + Answers(i, chain[1..][1..]);
    }
  }

  // Running the callbacks

  lemma {:induction false} ChainLinks(pol: Policy, cached: Store, chain: seq<Packet>, nows: seq<int>, step: int, i: nat)
    requires Chain(pol, cached, chain, nows, step) && 1 <= i < |chain|
    ensures pol.decodes(chain[i]) && pol.inDate(chain[i], nows[i]) && pol.signs(chain[i], chain[i - 1])
    decreases i
  {
    if i == 1 {
    } else {
      ChainLinks(pol, cached, chain[1..], nows[1..], step + 1, i - 1);
    }
  }

  /** Each certificate signs the packet before it, and is in date when its callback runs. */
  ghost predicate Signed(pol: Policy, chain: seq<Packet>, nows: seq<int>) {
    && |chain| == |nows|
    && forall i | 1 <= i < |chain| ::
         pol.decodes(chain[i]) && pol.inDate(chain[i], nows[i]) && pol.signs(chain[i], chain[i - 1])
  }

  lemma GoodNewsGoesUp(pol: Policy, s: State, left: seq<Task>, data: Packet, cert: Packet, up: Cont, now: int)
    requires s.tasks == left + [Task(true, cert, Signs(data, up))]
    requires pol.decodes(cert) && pol.inDate(cert, now) && pol.signs(cert, data)
    ensures var u := Step(pol, s, RunTask(|left|, now));
            && u.tasks == left + [Task(true, data, up)] && u.requests == s.requests
            && u.outcomes == s.outcomes && u.drops == s.drops
  {
    assert RemoveAt(s.tasks, |left|) == left;
  }

  lemma NewsArrives(pol: Policy, s: State, left: seq<Task>, ok: bool, p: Packet, r: nat, now: int)
    requires s.tasks == left + [Task(ok, p, App(r))]
    ensures var u := Step(pol, s, RunTask(|left|, now));
            && u.tasks == left && u.requests == s.requests
            && u.outcomes == s.outcomes + [Outcome(r, ok, p)] && u.drops == s.drops
  {
    assert RemoveAt(s.tasks, |left|) == left;
  }

  lemma SignedUp(pol: Policy, chain: seq<Packet>, nows: seq<int>)
    requires |chain| > 1 && Signed(pol, chain, nows)
    ensures Signed(pol, Up(chain), Up(nows))
  {
  }

  /** The good news about the last packet of a signed chain goes up to the first. */
  lemma {:induction false} ChainUnwinds(pol: Policy, s: State, left: seq<Task>, chain: seq<Packet>, nows: seq<int>,
                                        r: nat)
    requires chain != [] && Signed(pol, chain, nows)
    requires s.tasks == left + [Task(true, chain[|chain| - 1], Waiter(chain, App(r)))]
    ensures var u := Steps(pol, s, Callbacks(|left|, nows));
            && u.tasks == left && u.requests == s.requests
            && u.outcomes == s.outcomes + [Outcome(r, true, chain[0])] && u.drops == s.drops
    decreases |chain|
  {
    var last := |chain| - 1;
    var u := Step(pol, s, RunTask(|left|, nows[last]));
    assert Callbacks(|left|, nows)[1..] == Callbacks(|left|, Up(nows));
    if |chain| == 1 {
      NewsArrives(pol, s, left, true, chain[0], r, nows[0]);
      assert Up(nows) == [];
    } else {
      SignedUp(pol, chain, nows);
      GoodNewsGoesUp(pol, s, left, chain[last - 1], chain[last], Waiter(Up(chain), App(r)), nows[last]);
      ChainUnwinds(pol, u, left, Up(chain), Up(nows), r);
    }
  }

  /** What happens to a chain: it is started, its Interests are answered, and the callbacks run. */
  function Following(s: State, chain: seq<Packet>, nows: seq<int>, step: int): seq<Event>
    requires chain != []
  {
    [Start(chain[0], step)] + (Answers(|s.requests|, chain[1..]) + Callbacks(|s.tasks|, nows))
  }

  /** Wherever a founded chain of certificates in date stands behind a packet, following it verifies the packet. */
  lemma ChainedIsVerified(pol: Policy, s: State, chain: seq<Packet>, nows: seq<int>, step: int)
    requires Chain(pol, s.cache.entries, chain, nows, step)
    ensures var u := Steps(pol, s, Following(s, chain, nows, step));
            && u.outcomes == s.outcomes + [Outcome(|s.starts|, true, chain[0])]
            && u.requests == s.requests && u.tasks == s.tasks && u.drops == s.drops
  {
    var r, es, cs := |s.starts|, Answers(|s.requests|, chain[1..]), Callbacks(|s.tasks|, nows);
    var s' := s.(starts := s.starts + [step]);
    ChainIsFetched(pol, s', chain, nows, App(r), step);
    var v := Step(pol, s, Start(chain[0], step));
    assert v == VerifyData(pol, s', chain[0], App(r), step);
    forall i | 1 <= i < |chain|
      ensures pol.decodes(chain[i]) && pol.inDate(chain[i], nows[i]) && pol.signs(chain[i], chain[i - 1])
    {
      ChainLinks(pol, s.cache.entries, chain, nows, step, i);
    }
    ChainUnwinds(pol, Steps(pol, v, es), s.tasks, chain, nows, r);
    StepsConcat(pol, v, es, cs);
    assert Following(s, chain, nows, step)[1..] == es + cs;
  }

  /** So it is in every reachable state. */
  lemma ChainedIsVerifiedReachably(pol: Policy, es: seq<Event>, chain: seq<Packet>, nows: seq<int>, step: int)
    requires Chain(pol, Reach(pol, es).cache.entries, chain, nows, step)
    ensures var s := Reach(pol, es);
            var u := Reach(pol, es + Following(s, chain, nows, step));
            u.outcomes == s.outcomes + [Outcome(|s.starts|, true, chain[0])]
  {
    ReachSteps(pol, es, Following(Reach(pol, es), chain, nows, step));
    ChainedIsVerified(pol, Reach(pol, es), chain, nows, step);
  }

  /** The Interests that go out on the way carry the names that the packets give, with three retries. */
  lemma {:induction false} ChainNames(pol: Policy, s: State, chain: seq<Packet>, nows: seq<int>, k: Cont, step: int,
                                      i: nat)
    requires Chain(pol, s.cache.entries, chain, nows, step) && i + 1 < |chain|
    ensures var u := Steps(pol, VerifyData(pol, s, chain[0], k, step), Answers(|s.requests|, chain[1..i + 1]));
            && |u.requests| == |s.requests| + 1 && u.requests[..|s.requests|] == s.requests
            && var q := u.requests[|s.requests|];
               q.data == chain[i] && Some(q.name) == pol.keyName(chain[i]) && q.retry == 3 && q.step == step + i + 1
    decreases i
  {
    var v := VerifyData(pol, s, chain[0], k, step);
    LinkAsks(pol, s, chain[0], k, step, chain[1], nows[1]);
    if i == 0 {
      assert chain[1..1] == [];
    } else {
      AnswerVerifies(pol, v, v.requests[|s.requests|], s.requests, chain[1]);
      ChainNames(pol, v.(requests := s.requests), chain[1..], nows[1..], Signs(chain[0], k), step + 1, i - 1);
      assert chain[1..i + 1][1..] == chain[1..][1..i - 1 + 1] && chain[1..i + 1][0] == chain[1];
    }
  }

  // Bad news

  /** The packet that the application asked about, when `k` waits for `p`. */
  function Root(p: Packet, k: Cont): Packet
    decreases k
  {
    match k
    case App(_) => p
    case Signs(data, up) => Root(data, up)
  }

  /** Bad news about a packet goes up to the application, at whatever times the callbacks run. */
  lemma {:induction false} BadNewsGoesUp(pol: Policy, s: State, left: seq<Task>, p: Packet, k: Cont, nows: seq<int>)
    requires s.tasks == left + [Task(false, p, k)] && |nows| == Depth(k) + 1
    ensures var u := Steps(pol, s, Callbacks(|left|, nows));
            && u.tasks == left && u.requests == s.requests
            && u.outcomes == s.outcomes + [Outcome(RunOf(k), false, Root(p, k))] && u.drops == s.drops
    decreases k
  {
    var now := nows[|nows| - 1];
    assert Callbacks(|left|, nows)[1..] == Callbacks(|left|, Up(nows)) && RemoveAt(s.tasks, |left|) == left;
    match k
    case App(r) =>
      NewsArrives(pol, s, left, false, p, r, now);
      assert Up(nows) == [];
    case Signs(data, up) =>
      BadNewsGoesUp(pol, Step(pol, s, RunTask(|left|, now)), left, data, up, Up(nows));
  }

  function Timeouts(i: nat, n: nat): seq<Event> {
    if n == 0 then [] else [Timeout(i)] + Timeouts(i, n - 1)
  }

  /** An unanswered Interest is sent again as often as it has retries left, and then its packet is given up. */
  lemma {:induction false} TimeoutsGiveUp(pol: Policy, s: State, left: seq<Request>, q: Request)
    requires s.requests == left + [q]
    ensures var u := Steps(pol, s, Timeouts(|left|, q.retry + 1));
            && u.requests == left && u.tasks == s.tasks + [Task(false, q.data, q.k)]
            && u.sent[RunOf(q.k)] == s.sent[RunOf(q.k)] + q.retry && u.outcomes == s.outcomes && u.drops == s.drops
    decreases q.retry
  {
    assert RemoveAt(s.requests, |left|) == left;
    assert Timeouts(|left|, q.retry + 1)[1..] == Timeouts(|left|, q.retry);
    if q.retry == 0 {
    } else {
      TimeoutsGiveUp(pol, Step(pol, s, Timeout(|left|)), left, q.(retry := q.retry - 1));
    }
  }

  // What is cached

  /** A certificate in date is cached under its name without the version, until its freshness is over. */
  lemma InDateIsCached(pol: Policy, s: State, cert: Packet, name: Name, version: string, data: Packet, up: Cont,
                       now: int)
    requires pol.cacheSize > 0 && cert.name == name + [version]
    requires pol.decodes(cert) && pol.inDate(cert, now)
    ensures var u := Callback(pol, s, Task(true, cert, Signs(data, up)), now);
            name in u.cache.entries && u.cache.entries[name] == CC.Cached(cert, now + pol.freshness(cert))
  {
    assert Up(cert.name) == name;
  }

  /** A certificate out of date is not cached, and its packet is given up. */
  lemma OutOfDateIsRefused(pol: Policy, s: State, cert: Packet, data: Packet, up: Cont, now: int)
    requires pol.decodes(cert) && !pol.inDate(cert, now)
    ensures Callback(pol, s, Task(true, cert, Signs(data, up)), now) == s.(tasks := s.tasks + [Task(false, data, up)])
  {
  }
}
