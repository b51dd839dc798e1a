/** The certificate-chain validation protocol as a transition system over network and executor events. */
module Validation {
  import opened Sequences
  import B = BoundedMap
  import CC = CertificateCache

  type Name = seq<string>

  datatype Packet = Packet(name: Name, content: seq<nat>)

  datatype Rule = Rule(matches: Packet -> bool, satisfies: Packet -> bool)

  /** The policy manager's configuration, with what other libraries decide left as functions. */
  datatype Policy = Policy(
    verify: seq<Rule>,
    mustFail: seq<Rule>,
    exempt: seq<Packet -> bool>,
    anchors: map<Name, Packet>,
    stepLimit: int,
    cacheSize: nat,
    keyName: Packet -> Option<Name>,
    signs: (Packet, Packet) -> bool,
    decodes: Packet -> bool,
    inDate: (Packet, int) -> bool,
    freshness: Packet -> int)

  ghost predicate SomeMatches(rules: seq<Rule>, p: Packet) {
    exists i | 0 <= i < |rules| :: rules[i].matches(p)
  }

  ghost predicate SomeSatisfied(rules: seq<Rule>, p: Packet) {
    exists i | 0 <= i < |rules| :: rules[i].satisfies(p)
  }

  ghost predicate RequireVerify(pol: Policy, p: Packet) {
    SomeMatches(pol.verify, p) || SomeMatches(pol.mustFail, p)
  }

  ghost predicate IsExempt(pol: Policy, p: Packet) {
    exists i | 0 <= i < |pol.exempt| :: pol.exempt[i](p)
  }

  /** Who is called back with the verdict on a packet: the application, or the check of the packet it signs. */
  datatype Cont = App(run: nat) | Signs(data: Packet, up: Cont)

  function RunOf(k: Cont): nat {
    match k
    case App(r) => r
    case Signs(_, up) => RunOf(up)
  }

  function Depth(k: Cont): nat {
    match k
    case App(_) => 0
    case Signs(_, up) => 1 + Depth(up)
  }

  /** An Interest on its way for the certificate named in `data`'s key locator. */
  datatype Request = Request(data: Packet, name: Name, retry: nat, step: int, k: Cont)

  /** A callback waiting in the executor. */
  datatype Task = Task(ok: bool, packet: Packet, k: Cont)

  datatype Outcome = Outcome(run: nat, ok: bool, packet: Packet)

  /** A run that ended without a callback, and why. */
  datatype Drop = Drop(run: nat, cert: Packet, data: Packet, now: int)

  /** Which certificates were accepted, and what the clock said then. */
  type Log = set<(Packet, int)>

  datatype State = State(
    cache: B.State<Name, CC.Cached<Packet>>,
    requests: seq<Request>,
    tasks: seq<Task>,
    outcomes: seq<Outcome>,
    drops: seq<Drop>,
    accepted: Log,
    starts: seq<int>,
    sent: multiset<nat>,
    certs: multiset<nat>)

  const Initial := State(B.State(map[], []), [], [], [], [], {}, [], multiset{}, multiset{})

  datatype Event =
    | Start(packet: Packet, step: int)
    | Deliver(i: nat, packet: Packet)
    | Timeout(i: nat)
    | RunTask(i: nat, now: int)
    | CleanPass(now: int)

  function RemoveAt<T>(s: seq<T>, i: nat): seq<T>
    requires i < |s|
  {
    s[..i] + s[i + 1..]
  }

  function Post(s: State, ok: bool, p: Packet, k: Cont): State {
    s.(tasks := s.tasks + [Task(ok, p, k)])
  }

  function Send(s: State, r: Request): State {
    s.(requests := s.requests + [r], sent := s.sent + multiset{RunOf(r.k)})
  }

  /** What is done with a packet at once: report on it, or ask for the certificate that signs it. */
  datatype Verdict = Report(ok: bool) | Touched(ok: bool, name: Name) | Fetch(name: Name)

  /** The decision of `Keychain::verifyData` and `checkVerificationPolicy`. */
  ghost function Judge(pol: Policy, cached: map<Name, CC.Cached<Packet>>, p: Packet, step: int): Verdict {
    if RequireVerify(pol, p) then
      if pol.stepLimit == step || SomeSatisfied(pol.mustFail, p) || !SomeSatisfied(pol.verify, p)
         || pol.keyName(p).None? then
        Report(false)
      else
        var n := pol.keyName(p).value;
        if n in pol.anchors then Report(pol.signs(pol.anchors[n], p))
        else if n in cached then Touched(pol.signs(cached[n].cert, p), n)
        else Fetch(n)
    else
      Report(IsExempt(pol, p))
  }

  /** `Keychain::verifyData`: a looked-up cache entry becomes the most recent one, an Interest gets three retries. */
  ghost function VerifyData(pol: Policy, s: State, p: Packet, k: Cont, step: int): State {
    match Judge(pol, s.cache.entries, p, step)
    case Report(ok) => Post(s, ok, p, k)
    case Touched(ok, n) => Post(s.(cache := B.Touch(B.Lru, s.cache, n)), ok, p, k)
    case Fetch(n) => Send(s.(certs := s.certs + multiset{RunOf(k)}), Request(p, n, 3, step + 1, k))
  }

  function CacheName(cert: Packet): Name {
    if cert.name == [] then [] else Up(cert.name)
  }

  /** An in-date certificate goes into the cache. */
  function Accept(pol: Policy, s: State, cert: Packet, now: int): State {
    var cached := CC.Cached(cert, now + pol.freshness(cert));
    s.(cache := CC.Put(pol.cacheSize, s.cache, CacheName(cert), cached), accepted := s.accepted + {(cert, now)})
  }

  /** `onCertificateVerified`, `onCertificateUnverified` and the application's own callbacks. */
  ghost function Callback(pol: Policy, s: State, t: Task, now: int): State {
    match t.k
    case App(r) => s.(outcomes := s.outcomes + [Outcome(r, t.ok, t.packet)])
    case Signs(data, up) =>
      if !t.ok then Post(s, false, data, up)
      else if !pol.decodes(t.packet) then s.(drops := s.drops + [Drop(RunOf(up), t.packet, data, now)])
      else if !pol.inDate(t.packet, now) then Post(s, false, data, up)
      else
        var s' := Accept(pol, s, t.packet, now);
        if pol.signs(t.packet, data) then Post(s', true, data, up)
        else s'.(drops := s'.drops + [Drop(RunOf(up), t.packet, data, now)])
  }

  /** `onCertificateInterestTimeout`. */
  function OnTimeout(s: State, r: Request): State {
    if r.retry > 0 then Send(s, r.(retry := r.retry - 1)) else Post(s, false, r.data, r.k)
  }

  /** An event that names no waiting request or task changes nothing. */
  ghost predicate Enabled(s: State, e: Event) {
    match e
    case Start(_, _) => true
    case Deliver(i, _) => i < |s.requests|
    case Timeout(i) => i < |s.requests|
    case RunTask(i, _) => i < |s.tasks|
    case CleanPass(_) => true
  }

  ghost function Step(pol: Policy, s: State, e: Event): State {
    if !Enabled(s, e) then s else
    match e
    case Start(p, step) => VerifyData(pol, s.(starts := s.starts + [step]), p, App(|s.starts|), step)
    case Deliver(i, p) =>
      var r := s.requests[i];
      VerifyData(pol, s.(requests := RemoveAt(s.requests, i)), p, Signs(r.data, r.k), r.step)
    case Timeout(i) => OnTimeout(s.(requests := RemoveAt(s.requests, i)), s.requests[i])
    case RunTask(i, now) => Callback(pol, s.(tasks := RemoveAt(s.tasks, i)), s.tasks[i], now)
    case CleanPass(now) => s.(cache := CC.Cleaned(s.cache, now))
  }

  ghost function Reach(pol: Policy, es: seq<Event>): State {
    if es == [] then Initial else Step(pol, Reach(pol, Up(es)), es[|es| - 1])
  }

  // Trust

  /** A finite reason to trust a packet. */
  datatype Proof =
    | Exempted(packet: Packet)
    | Anchored(packet: Packet, anchor: Packet)
    | Certified(packet: Packet, cert: Proof, accepted: int)

  /** The packet needs verification, no must-fail rule and some positive rule is satisfied, and it names a key. */
  ghost predicate PassesRules(pol: Policy, p: Packet) {
    && RequireVerify(pol, p)
    && !SomeSatisfied(pol.mustFail, p)
    && SomeSatisfied(pol.verify, p)
    && pol.keyName(p).Some?
  }

  /** Every certificate in the proof was in date when the log says it was accepted. */
  ghost predicate Sound(pol: Policy, log: Log, d: Proof) {
    match d
    case Exempted(p) => !RequireVerify(pol, p) && IsExempt(pol, p)
    case Anchored(p, a) =>
      && PassesRules(pol, p)
      && pol.keyName(p).value in pol.anchors && pol.anchors[pol.keyName(p).value] == a
      && pol.signs(a, p)
    case Certified(p, c, t) =>
      && PassesRules(pol, p)
      && pol.keyName(p).value !in pol.anchors
      && Sound(pol, log, c) && pol.decodes(c.packet) && (c.packet, t) in log && pol.inDate(c.packet, t)
      && pol.signs(c.packet, p)
  }

  ghost predicate Trusted(pol: Policy, log: Log, p: Packet) {
    exists d :: Sound(pol, log, d) && d.packet == p
  }

  /** Trusted, and read as a certificate when it was in date. */
  ghost predicate Accepted(pol: Policy, log: Log, c: Packet) {
    Trusted(pol, log, c) && pol.decodes(c) && exists t :: (c, t) in log && pol.inDate(c, t)
  }

  lemma {:induction false} SoundLater(pol: Policy, log: Log, later: Log, d: Proof)
    requires Sound(pol, log, d) && log <= later
    ensures Sound(pol, later, d)
  {
    if d.Certified? {
      SoundLater(pol, log, later, d.cert);
    }
  }

  /** What was trusted stays trusted. */
  lemma TrustedLater(pol: Policy, log: Log, later: Log)
    requires log <= later
    ensures forall p | Trusted(pol, log, p) :: Trusted(pol, later, p)
    ensures forall c | Accepted(pol, log, c) :: Accepted(pol, later, c)
  {
    forall p | Trusted(pol, log, p) ensures Trusted(pol, later, p) {
      var d :| Sound(pol, log, d) && d.packet == p;
      SoundLater(pol, log, later, d);
    }
  }

  lemma CertifiedIsTrusted(pol: Policy, log: Log, c: Packet, p: Packet)
    requires Accepted(pol, log, c) && PassesRules(pol, p) && pol.keyName(p).value !in pol.anchors && pol.signs(c, p)
    ensures Trusted(pol, log, p)
  {
    var d :| Sound(pol, log, d) && d.packet == c;
    var t :| (c, t) in log && pol.inDate(c, t);
    assert Sound(pol, log, Certified(p, d, t));
  }

  /** Every packet that waits for its signing certificate has passed the rules and names no anchor. */
  ghost predicate Waiting(pol: Policy, k: Cont) {
    match k
    case App(_) => true
    case Signs(data, up) => PassesRules(pol, data) && pol.keyName(data).value !in pol.anchors && Waiting(pol, up)
  }

  ghost predicate TrustInv(pol: Policy, s: State) {
    && (forall n | n in s.cache.entries :: Accepted(pol, s.accepted, s.cache.entries[n].cert))
    && (forall e | e in s.accepted :: Trusted(pol, s.accepted, e.0) && pol.decodes(e.0) && pol.inDate(e.0, e.1))
    && (forall r | r in s.requests :: Waiting(pol, Signs(r.data, r.k)))
    && (forall t | t in s.tasks :: Waiting(pol, t.k) && (t.ok ==> Trusted(pol, s.accepted, t.packet)))
    && (forall o | o in s.outcomes :: o.ok ==> Trusted(pol, s.accepted, o.packet))
    && (forall d | d in s.drops ::
          && Trusted(pol, s.accepted, d.cert)
          && (!pol.decodes(d.cert) || (pol.inDate(d.cert, d.now) && !pol.signs(d.cert, d.data))))
  }

  /** What is reported at once as verified is trusted; what needs a certificate has passed the rules. */
  lemma JudgeTrust(pol: Policy, log: Log, cached: map<Name, CC.Cached<Packet>>, p: Packet, step: int)
    requires forall n | n in cached :: Accepted(pol, log, cached[n].cert)
    ensures var v := Judge(pol, cached, p, step);
            && (!v.Fetch? && v.ok ==> Trusted(pol, log, p))
            && (v.Fetch? ==> PassesRules(pol, p) && pol.keyName(p).value !in pol.anchors)
  {
    if PassesRules(pol, p) {
      var n := pol.keyName(p).value;
      if n in pol.anchors {
        assert pol.signs(pol.anchors[n], p) ==> Sound(pol, log, Anchored(p, pol.anchors[n]));
      } else if n in cached && pol.signs(cached[n].cert, p) {
        CertifiedIsTrusted(pol, log, cached[n].cert, p);
      }
    } else if !RequireVerify(pol, p) && IsExempt(pol, p) {
      assert Sound(pol, log, Exempted(p));
    }
  }

  lemma PostTrust(pol: Policy, s: State, ok: bool, p: Packet, k: Cont)
    requires TrustInv(pol, s) && Waiting(pol, k) && (ok ==> Trusted(pol, s.accepted, p))
    ensures TrustInv(pol, Post(s, ok, p, k))
  {
  }

  lemma VerifyDataTrust(pol: Policy, s: State, p: Packet, k: Cont, step: int)
    requires TrustInv(pol, s) && Waiting(pol, k)
    ensures TrustInv(pol, VerifyData(pol, s, p, k, step))
  {
    JudgeTrust(pol, s.accepted, s.cache.entries, p, step);
    match Judge(pol, s.cache.entries, p, step)
    case Report(ok) =>
      PostTrust(pol, s, ok, p, k);
    case Touched(ok, n) =>
      PostTrust(pol, s.(cache := B.Touch(B.Lru, s.cache, n)), ok, p, k);
    case Fetch(n) =>
  }

  lemma AcceptTrust(pol: Policy, s: State, cert: Packet, now: int)
    requires TrustInv(pol, s) && Trusted(pol, s.accepted, cert) && pol.decodes(cert) && pol.inDate(cert, now)
    ensures TrustInv(pol, Accept(pol, s, cert, now))
    ensures Accepted(pol, Accept(pol, s, cert, now).accepted, cert)
  {
    var log := s.accepted + {(cert, now)};
    TrustedLater(pol, s.accepted, log);
    assert (cert, now) in log;
    assert Accepted(pol, log, cert);
  }

  lemma CallbackTrust(pol: Policy, s: State, t: Task, now: int)
    requires TrustInv(pol, s) && Waiting(pol, t.k) && (t.ok ==> Trusted(pol, s.accepted, t.packet))
    ensures TrustInv(pol, Callback(pol, s, t, now))
  {
    match t.k
    case App(_) =>
    case Signs(data, up) =>
      if !t.ok || (pol.decodes(t.packet) && !pol.inDate(t.packet, now)) {
        PostTrust(pol, s, false, data, up);
      } else if pol.decodes(t.packet) {
        var s' := Accept(pol, s, t.packet, now);
        AcceptTrust(pol, s, t.packet, now);
        if pol.signs(t.packet, data) {
          CertifiedIsTrusted(pol, s'.accepted, t.packet, data);
          PostTrust(pol, s', true, data, up);
        }
      }
  }

  lemma StepTrust(pol: Policy, s: State, e: Event)
    requires TrustInv(pol, s)
    ensures TrustInv(pol, Step(pol, s, e))
  {
    if Enabled(s, e) {
      match e
      case Start(p, step) =>
        VerifyDataTrust(pol, s.(starts := s.starts + [step]), p, App(|s.starts|), step);
      case Deliver(i, p) =>
        var r := s.requests[i];
        VerifyDataTrust(pol, s.(requests := RemoveAt(s.requests, i)), p, Signs(r.data, r.k), r.step);
      case Timeout(i) =>
        assert s.requests[i] in s.requests;
      case RunTask(i, now) =>
        assert s.tasks[i] in s.tasks;
        CallbackTrust(pol, s.(tasks := RemoveAt(s.tasks, i)), s.tasks[i], now);
      case CleanPass(now) =>
    }
  }

  /** Whatever the network answers, every packet reported verified and every cached certificate has a trust proof. */
  lemma {:induction false} OnlyTrustedIsVerified(pol: Policy, es: seq<Event>)
    ensures TrustInv(pol, Reach(pol, es))
  {
    if es == [] {
    } else {
      OnlyTrustedIsVerified(pol, Up(es));
      StepTrust(pol, Reach(pol, Up(es)), es[|es| - 1]);
    }
  }
}
