/** Each validation run has one thread of control, sends boundedly many Interests and ends. */
module ValidationRuns {
  import opened Sequences
  import opened Validation

  /** How many elements of `s` belong to run `r`. */
  ghost function Count<T(!new)>(s: seq<T>, f: T -> nat, r: nat): nat {
    if s == [] then 0 else Count(Up(s), f, r) + One(f(s[|s| - 1]), r)
  }

  function One(a: nat, b: nat): nat {
    if a == b then 1 else 0
  }

  lemma CountAppend<T(!new)>(s: seq<T>, x: T, f: T -> nat, r: nat)
    ensures Count(s + [x], f, r) == Count(s, f, r) + One(f(x), r)
  {
    assert Up(s + [x]) == s;
  }

  lemma {:induction false} CountRemoveAt<T(!new)>(s: seq<T>, i: nat, f: T -> nat, r: nat)
    requires i < |s|
    ensures Count(s, f, r) == Count(RemoveAt(s, i), f, r) + One(f(s[i]), r)
  {
    if i == |s| - 1 {
      assert RemoveAt(s, i) == Up(s);
    } else {
      CountRemoveAt(Up(s), i, f, r);
      assert RemoveAt(s, i) == RemoveAt(Up(s), i) + [s[|s| - 1]];
      CountAppend(RemoveAt(Up(s), i), s[|s| - 1], f, r);
    }
  }

  lemma {:induction false} CountPositive<T(!new)>(s: seq<T>, x: T, f: T -> nat)
    requires x in s
    ensures Count(s, f, f(x)) >= 1
  {
    if x == s[|s| - 1] {
    } else {
      assert s == Up(s) + [s[|s| - 1]];
      CountPositive(Up(s), x, f);
    }
  }

  function RequestRun(r: Request): nat { RunOf(r.k) }
  function TaskRun(t: Task): nat { RunOf(t.k) }
  function OutcomeRun(o: Outcome): nat { o.run }
  function DropRun(d: Drop): nat { d.run }

  /** In how many places run `r` stands: waiting requests and callbacks, outcomes, drops. */
  ghost function Places(s: State, r: nat): nat {
    Count(s.requests, RequestRun, r) + Count(s.tasks, TaskRun, r)
    + Count(s.outcomes, OutcomeRun, r) + Count(s.drops, DropRun, r)
  }

  lemma PostPlaces(s: State, ok: bool, p: Packet, k: Cont, r: nat)
    ensures Places(Post(s, ok, p, k), r) == Places(s, r) + One(RunOf(k), r)
  {
    CountAppend(s.tasks, Task(ok, p, k), TaskRun, r);
  }

  lemma SendPlaces(s: State, q: Request, r: nat)
    ensures Places(Send(s, q), r) == Places(s, r) + One(RunOf(q.k), r)
  {
    CountAppend(s.requests, q, RequestRun, r);
  }

  lemma VerifyDataPlaces(pol: Policy, s: State, p: Packet, k: Cont, step: int, r: nat)
    ensures Places(VerifyData(pol, s, p, k, step), r) == Places(s, r) + One(RunOf(k), r)
    ensures VerifyData(pol, s, p, k, step).starts == s.starts
  {
    match Judge(pol, s.cache.entries, p, step)
    case Report(ok) =>
      PostPlaces(s, ok, p, k, r);
    case Touched(ok, n) =>
      PostPlaces(s, ok, p, k, r);
    case Fetch(n) =>
      SendPlaces(s, Request(p, n, 3, step + 1, k), r);
  }

  lemma CallbackPlaces(pol: Policy, s: State, t: Task, now: int, r: nat)
    ensures Places(Callback(pol, s, t, now), r) == Places(s, r) + One(RunOf(t.k), r)
    ensures Callback(pol, s, t, now).starts == s.starts
  {
    var u := Callback(pol, s, t, now);
    if |u.outcomes| != |s.outcomes| {
      CountAppend(s.outcomes, u.outcomes[|s.outcomes|], OutcomeRun, r);
    } else if |u.drops| != |s.drops| {
      CountAppend(s.drops, u.drops[|s.drops|], DropRun, r);
    } else {
      CountAppend(s.tasks, u.tasks[|s.tasks|], TaskRun, r);
    }
  }

  lemma StepPlaces(pol: Policy, s: State, e: Event, r: nat)
    ensures Places(Step(pol, s, e), r) == Places(s, r) + (if e.Start? then One(|s.starts|, r) else 0)
    ensures Step(pol, s, e).starts == s.starts + (if e.Start? then [e.step] else [])
  {
    if Enabled(s, e) {
      match e
      case Start(p, step) =>
        VerifyDataPlaces(pol, s.(starts := s.starts + [step]), p, App(|s.starts|), step, r);
      case Deliver(i, p) =>
        var q := s.requests[i];
        CountRemoveAt(s.requests, i, RequestRun, r);
        VerifyDataPlaces(pol, s.(requests := RemoveAt(s.requests, i)), p, Signs(q.data, q.k), q.step, r);
      case Timeout(i) =>
        var q := s.requests[i];
        var s' := s.(requests := RemoveAt(s.requests, i));
        CountRemoveAt(s.requests, i, RequestRun, r);
        if q.retry > 0 {
          SendPlaces(s', q.(retry := q.retry - 1), r);
        } else {
          PostPlaces(s', false, q.data, q.k, r);
        }
      case RunTask(i, now) =>
        CountRemoveAt(s.tasks, i, TaskRun, r);
        CallbackPlaces(pol, s.(tasks := RemoveAt(s.tasks, i)), s.tasks[i], now, r);
      case CleanPass(now) =>
    }
  }

  /** Every started run stands in exactly one place, and no other run stands anywhere. */
  lemma {:induction false} RunsStaySingle(pol: Policy, es: seq<Event>, r: nat)
    ensures Places(Reach(pol, es), r) == if r < |Reach(pol, es).starts| then 1 else 0
  {
    if es == [] {
    } else {
      RunsStaySingle(pol, Up(es), r);
      StepPlaces(pol, Reach(pol, Up(es)), es[|es| - 1], r);
    }
  }

  ghost predicate Idle(s: State, r: nat) {
    (forall q | q in s.requests :: RunOf(q.k) != r) && forall t | t in s.tasks :: RunOf(t.k) != r
  }

  lemma {:induction false} CountNone<T(!new)>(s: seq<T>, f: T -> nat, r: nat)
    requires forall x | x in s :: f(x) != r
    ensures Count(s, f, r) == 0
  {
    if s == [] {
    } else {
      assert s[|s| - 1] in s && forall x | x in Up(s) :: x in s;
      CountNone(Up(s), f, r);
    }
  }

  /** At most one outcome callback per run; once nothing of the run waits, exactly one or a recorded drop. */
  lemma OneOutcomePerRun(pol: Policy, es: seq<Event>, r: nat)
    requires r < |Reach(pol, es).starts|
    ensures var s := Reach(pol, es);
            var outcomes, drops := Count(s.outcomes, OutcomeRun, r), Count(s.drops, DropRun, r);
            && outcomes + drops <= 1
            && (Idle(s, r) <==> outcomes + drops == 1)
  {
    RunsStaySingle(pol, es, r);
    var s := Reach(pol, es);
    if Idle(s, r) {
      CountNone(s.requests, RequestRun, r);
      CountNone(s.tasks, TaskRun, r);
    } else if q :| q in s.requests && RunOf(q.k) == r {
      CountPositive(s.requests, q, RequestRun);
    } else {
      var t :| t in s.tasks && RunOf(t.k) == r;
      CountPositive(s.tasks, t, TaskRun);
    }
  }

  // Runs without an outcome

  /** The event runs a callback of `r` with a verified certificate that does not decode, or is in date and fails. */
  ghost predicate Fails(pol: Policy, s: State, e: Event, r: nat) {
    && e.RunTask? && Enabled(s, e)
    && var t := s.tasks[e.i];
       && RunOf(t.k) == r && t.k.Signs? && t.ok
       && (!pol.decodes(t.packet) || (pol.inDate(t.packet, e.now) && !pol.signs(t.packet, t.k.data)))
  }

  /** At some point of the run of events, a callback of `r` failed. */
  ghost predicate Failed(pol: Policy, es: seq<Event>, r: nat) {
    es != [] && (Failed(pol, Up(es), r) || Fails(pol, Reach(pol, Up(es)), es[|es| - 1], r))
  }

  lemma StepDrops(pol: Policy, s: State, e: Event, r: nat)
    ensures Count(Step(pol, s, e).drops, DropRun, r)
            == Count(s.drops, DropRun, r) + if Fails(pol, s, e, r) then 1 else 0
  {
    if e.RunTask? && Enabled(s, e) {
      var t := s.tasks[e.i];
      if t.k.Signs? {
        CountAppend(s.drops, Drop(RunOf(t.k.up), t.packet, t.k.data, e.now), DropRun, r);
      }
    }
  }

  lemma {:induction false} DroppedExactly(pol: Policy, es: seq<Event>, r: nat)
    ensures Failed(pol, es, r) <==> Count(Reach(pol, es).drops, DropRun, r) > 0
  {
    if es == [] {
    } else {
      DroppedExactly(pol, Up(es), r);
      StepDrops(pol, Reach(pol, Up(es)), es[|es| - 1], r);
    }
  }

  /** A run that is over had its one outcome exactly when none of its callbacks failed; a failed one has none. */
  lemma OutcomeExactly(pol: Policy, es: seq<Event>, r: nat)
    requires r < |Reach(pol, es).starts|
    ensures var s := Reach(pol, es);
            && (Idle(s, r) ==> (Count(s.outcomes, OutcomeRun, r) == 1 <==> !Failed(pol, es, r)))
            && (Failed(pol, es, r) ==> Idle(s, r) && Count(s.outcomes, OutcomeRun, r) == 0)
  {
    OneOutcomePerRun(pol, es, r);
    DroppedExactly(pol, es, r);
  }

  /** What has failed stays failed, whatever follows. */
  lemma {:induction false} FailureStays(pol: Policy, es: seq<Event>, more: seq<Event>, r: nat)
    requires Failed(pol, es, r)
    ensures Failed(pol, es + more, r)
    decreases |more|
  {
    if more == [] {
      assert es + more == es;
    } else {
      FailureStays(pol, es, Up(more), r);
      assert Up(es + more) == es + Up(more);
    }
  }

  // Interests

  /** What a run started at `start` may have sent when it stands at `step` with `retry` retries left. */
  ghost predicate Within(limit: int, start: int, sent: nat, certs: nat, step: int, retry: nat) {
    start <= step <= limit && certs <= step - start && sent + retry <= 4 * certs
  }

  ghost predicate BudgetInv(pol: Policy, s: State, r: nat) {
    if r >= |s.starts| then s.sent[r] == 0 && s.certs[r] == 0
    else s.starts[r] <= pol.stepLimit ==>
           && Within(pol.stepLimit, s.starts[r], s.sent[r], s.certs[r], pol.stepLimit, 0)
           && forall q | q in s.requests && RunOf(q.k) == r ::
                Within(pol.stepLimit, s.starts[r], s.sent[r], s.certs[r], q.step, q.retry)
  }

  lemma VerifyDataBudget(pol: Policy, s: State, p: Packet, k: Cont, step: int, r: nat)
    requires BudgetInv(pol, s, r)
    requires RunOf(k) == r ==>
               && r < |s.starts|
               && (forall q | q in s.requests :: RunOf(q.k) != r)
               && (s.starts[r] <= pol.stepLimit ==> Within(pol.stepLimit, s.starts[r], s.sent[r], s.certs[r], step, 0))
    ensures BudgetInv(pol, VerifyData(pol, s, p, k, step), r)
  {
  }

  /** Taking out the one request of a run leaves none of that run. */
  lemma NoSecondRequest(s: State, i: nat, r: nat)
    requires i < |s.requests| && RunOf(s.requests[i].k) == r && Places(s, r) <= 1
    ensures forall q | q in RemoveAt(s.requests, i) :: RunOf(q.k) != r
  {
    CountRemoveAt(s.requests, i, RequestRun, r);
    forall q | q in RemoveAt(s.requests, i) && RunOf(q.k) == r ensures false {
      CountPositive(RemoveAt(s.requests, i), q, RequestRun);
    }
  }

  lemma StepBudget(pol: Policy, s: State, e: Event, r: nat)
    requires BudgetInv(pol, s, r) && Places(s, r) == if r < |s.starts| then 1 else 0
    ensures BudgetInv(pol, Step(pol, s, e), r)
  {
    if Enabled(s, e) {
      match e
      case Start(p, step) =>
        forall q | q in s.requests && RunOf(q.k) == r ensures r < |s.starts| {
          CountPositive(s.requests, q, RequestRun);
        }
        VerifyDataBudget(pol, s.(starts := s.starts + [step]), p, App(|s.starts|), step, r);
      case Deliver(i, p) =>
        RequestBudget(pol, s, i, r);
        VerifyDataBudget(pol, s.(requests := RemoveAt(s.requests, i)), p,
                         Signs(s.requests[i].data, s.requests[i].k), s.requests[i].step, r);
      case Timeout(i) =>
        RequestBudget(pol, s, i, r);
        TimeoutBudget(pol, s.(requests := RemoveAt(s.requests, i)), s.requests[i], r);
      case RunTask(i, now) =>
        CallbackBudget(pol, s.(tasks := RemoveAt(s.tasks, i)), s.tasks[i], now, r);
      case CleanPass(now) =>
    }
  }

  lemma TimeoutBudget(pol: Policy, s: State, q: Request, r: nat)
    requires BudgetInv(pol, s, r)
    requires RunOf(q.k) == r ==>
               && r < |s.starts|
               && (forall x | x in s.requests :: RunOf(x.k) != r)
               && (s.starts[r] <= pol.stepLimit ==>
                     Within(pol.stepLimit, s.starts[r], s.sent[r], s.certs[r], q.step, q.retry))
    ensures BudgetInv(pol, OnTimeout(s, q), r)
  {
  }

  lemma CallbackBudget(pol: Policy, s: State, t: Task, now: int, r: nat)
    requires BudgetInv(pol, s, r)
    ensures BudgetInv(pol, Callback(pol, s, t, now), r)
  {
  }

  lemma RequestBudget(pol: Policy, s: State, i: nat, r: nat)
    requires BudgetInv(pol, s, r) && Places(s, r) == if r < |s.starts| then 1 else 0
    requires i < |s.requests|
    ensures BudgetInv(pol, s.(requests := RemoveAt(s.requests, i)), r)
    ensures var q := s.requests[i];
            RunOf(q.k) == r ==>
              && r < |s.starts|
              && (forall x | x in RemoveAt(s.requests, i) :: RunOf(x.k) != r)
              && (s.starts[r] <= pol.stepLimit ==>
                    Within(pol.stepLimit, s.starts[r], s.sent[r], s.certs[r], q.step, q.retry))
  {
    var q := s.requests[i];
    assert q in s.requests;
    if RunOf(q.k) == r {
      CountPositive(s.requests, q, RequestRun);
      NoSecondRequest(s, i, r);
    }
  }

  lemma {:induction false} BudgetHolds(pol: Policy, es: seq<Event>, r: nat)
    ensures BudgetInv(pol, Reach(pol, es), r)
  {
    if es == [] {
    } else {
      BudgetHolds(pol, Up(es), r);
      RunsStaySingle(pol, Up(es), r);
      StepBudget(pol, Reach(pol, Up(es)), es[|es| - 1], r);
    }
  }

  /** Whether an Interest of run `r` was sent from `s` to `u`. */
  ghost predicate Sends(s: State, u: State, r: nat) {
    u.sent != s.sent && u.requests != [] && RunOf(u.requests[|u.requests| - 1].k) == r
  }

  /** It was sent at `step`. Within a run the step names the certificate. */
  ghost predicate Asks(s: State, u: State, r: nat, step: int) {
    Sends(s, u, r) && u.requests[|u.requests| - 1].step == step
  }

  lemma SendIsCounted(s: State, q: Request, r: nat)
    ensures Send(s, q).sent[r] == s.sent[r] + if Sends(s, Send(s, q), r) then 1 else 0
  {
    assert Send(s, q).sent[RunOf(q.k)] == s.sent[RunOf(q.k)] + 1;
  }

  /** What is counted as sent is what the run's Interests are. */
  lemma InterestsAreCounted(pol: Policy, s: State, e: Event, r: nat)
    ensures var u := Step(pol, s, e); u.sent[r] == s.sent[r] + if Sends(s, u, r) then 1 else 0
  {
    if Enabled(s, e) {
      match e
      case Start(p, start) =>
        FetchIsCounted(pol, s.(starts := s.starts + [start]), p, App(|s.starts|), start, r);
      case Deliver(i, p) =>
        var q := s.requests[i];
        FetchIsCounted(pol, s.(requests := RemoveAt(s.requests, i)), p, Signs(q.data, q.k), q.step, r);
      case Timeout(i) =>
        var q := s.requests[i];
        if q.retry > 0 {
          SendIsCounted(s.(requests := RemoveAt(s.requests, i)), q.(retry := q.retry - 1), r);
        }
      case RunTask(i, now) =>
        CallbackSendsNothing(pol, s.(tasks := RemoveAt(s.tasks, i)), s.tasks[i], now);
      case CleanPass(now) =>
    }
  }

  lemma FetchIsCounted(pol: Policy, s: State, p: Packet, k: Cont, at: int, r: nat)
    ensures var u := VerifyData(pol, s, p, k, at);
            u.sent[r] == s.sent[r] + if Sends(s, u, r) then 1 else 0
  {
    match Judge(pol, s.cache.entries, p, at)
    case Report(_) =>
    case Touched(_, _) =>
    case Fetch(n) =>
      SendIsCounted(s.(certs := s.certs + multiset{RunOf(k)}), Request(p, n, 3, at + 1, k), r);
  }

  /** How many Interests run `r` has sent for the certificate at `step`. */
  ghost function Asked(pol: Policy, es: seq<Event>, r: nat, step: int): nat {
    if es == [] then 0
    else Asked(pol, Up(es), r, step) + if Asks(Reach(pol, Up(es)), Reach(pol, es), r, step) then 1 else 0
  }

  /** A waiting request has its retries to spare, and one for an earlier step comes before any Interest at `step`. */
  ghost predicate AskInv(s: State, r: nat, step: int, asked: nat) {
    && asked <= 4 && (r >= |s.starts| ==> asked == 0)
    && forall q | q in s.requests && RunOf(q.k) == r :: CanAsk(q, step, asked)
  }

  ghost predicate CanAsk(q: Request, step: int, asked: nat) {
    (q.step == step ==> asked + q.retry <= 4) && (q.step < step ==> asked == 0)
  }

  lemma SendAsks(s: State, q: Request, r: nat, step: int, asked: nat)
    requires AskInv(s, r, step, asked)
    requires RunOf(q.k) == r ==>
               && r < |s.starts| && (forall x | x in s.requests :: RunOf(x.k) != r)
               && (q.step == step ==> asked + 1 + q.retry <= 4) && (q.step < step ==> asked == 0)
    ensures AskInv(Send(s, q), r, step, asked + if Asks(s, Send(s, q), r, step) then 1 else 0)
  {
    assert Send(s, q).sent[RunOf(q.k)] == s.sent[RunOf(q.k)] + 1;
  }

  lemma VerifyDataAsks(pol: Policy, s: State, p: Packet, k: Cont, at: int, r: nat, step: int, asked: nat)
    requires AskInv(s, r, step, asked)
    requires RunOf(k) == r ==>
               r < |s.starts| && (forall x | x in s.requests :: RunOf(x.k) != r) && (at < step ==> asked == 0)
    ensures var u := VerifyData(pol, s, p, k, at);
            AskInv(u, r, step, asked + if Asks(s, u, r, step) then 1 else 0)
  {
    match Judge(pol, s.cache.entries, p, at)
    case Report(_) =>
    case Touched(_, _) =>
    case Fetch(n) =>
      SendAsks(s.(certs := s.certs + multiset{RunOf(k)}), Request(p, n, 3, at + 1, k), r, step, asked);
  }

  /** Taking out a request keeps the account; what is left has no other of its run. */
  lemma TakenAsks(s: State, i: nat, r: nat, step: int, asked: nat)
    requires AskInv(s, r, step, asked) && Places(s, r) == (if r < |s.starts| then 1 else 0) && i < |s.requests|
    ensures AskInv(s.(requests := RemoveAt(s.requests, i)), r, step, asked)
    ensures var q := s.requests[i];
            RunOf(q.k) == r ==>
              && r < |s.starts| && CanAsk(q, step, asked)
              && forall x | x in RemoveAt(s.requests, i) :: RunOf(x.k) != r
  {
    var q := s.requests[i];
    assert q in s.requests;
    if RunOf(q.k) == r {
      CountPositive(s.requests, q, RequestRun);
      NoSecondRequest(s, i, r);
    }
  }

  lemma StepAsks(pol: Policy, s: State, e: Event, r: nat, step: int, asked: nat)
    requires AskInv(s, r, step, asked) && Places(s, r) == if r < |s.starts| then 1 else 0
    ensures AskInv(Step(pol, s, e), r, step, asked + if Asks(s, Step(pol, s, e), r, step) then 1 else 0)
  {
    if Enabled(s, e) {
      match e
      case Start(p, start) =>
        forall q | q in s.requests && RunOf(q.k) == r ensures r < |s.starts| {
          CountPositive(s.requests, q, RequestRun);
        }
        VerifyDataAsks(pol, s.(starts := s.starts + [start]), p, App(|s.starts|), start, r, step, asked);
      case Deliver(i, p) =>
        var q := s.requests[i];
        TakenAsks(s, i, r, step, asked);
        VerifyDataAsks(pol, s.(requests := RemoveAt(s.requests, i)), p, Signs(q.data, q.k), q.step, r, step, asked);
      case Timeout(i) =>
        var q, left := s.requests[i], s.(requests := RemoveAt(s.requests, i));
        TakenAsks(s, i, r, step, asked);
        if q.retry > 0 {
          SendAsks(left, q.(retry := q.retry - 1), r, step, asked);
        }
      case RunTask(i, now) =>
        CallbackSendsNothing(pol, s.(tasks := RemoveAt(s.tasks, i)), s.tasks[i], now);
      case CleanPass(now) =>
    }
  }

  lemma CallbackSendsNothing(pol: Policy, s: State, t: Task, now: int)
    ensures var u := Callback(pol, s, t, now); u.requests == s.requests && u.sent == s.sent && u.starts == s.starts
  {
  }

  lemma {:induction false} AskHolds(pol: Policy, es: seq<Event>, r: nat, step: int)
    ensures AskInv(Reach(pol, es), r, step, Asked(pol, es, r, step))
  {
    if es == [] {
    } else {
      AskHolds(pol, Up(es), r, step);
      RunsStaySingle(pol, Up(es), r);
      StepAsks(pol, Reach(pol, Up(es)), es[|es| - 1], r, step, Asked(pol, Up(es), r, step));
    }
  }

  /** Every run, wherever it started, sends at most four Interests for each certificate. */
  lemma FourInterestsEach(pol: Policy, es: seq<Event>, r: nat, step: int)
    ensures Asked(pol, es, r, step) <= 4
  {
    AskHolds(pol, es, r, step);
  }

  /** A run asks for at most stepLimit - start certificates, with at most four Interests for each on the whole. */
  lemma InterestsAreBounded(pol: Policy, es: seq<Event>, r: nat)
    requires r < |Reach(pol, es).starts| && Reach(pol, es).starts[r] <= pol.stepLimit
    ensures var s := Reach(pol, es);
            && s.certs[r] <= pol.stepLimit - s.starts[r]
            && s.sent[r] <= 4 * s.certs[r]
  {
    BudgetHolds(pol, es, r);
  }

  // Termination

  /** Room for the steps a request may still take, its retries, and the callbacks it will unwind through. */
  function RequestWeight(limit: int, q: Request): int {
    5 * (limit - q.step) + q.retry + Depth(q.k) + 4
  }

  function TaskWeight(t: Task): nat {
    Depth(t.k) + 1
  }

  /** The sum of `w` over the elements that belong to run `r`. */
  ghost function Total<T(!new)>(s: seq<T>, f: T -> nat, w: T -> int, r: nat): int {
    if s == [] then 0 else Total(Up(s), f, w, r) + Share(s[|s| - 1], f, w, r)
  }

  ghost function Share<T(!new)>(x: T, f: T -> nat, w: T -> int, r: nat): int {
    if f(x) == r then w(x) else 0
  }

  /** What run `r` has left to do at most. */
  ghost function Weight(limit: int, s: State, r: nat): int {
    Total(s.requests, RequestRun, q => RequestWeight(limit, q), r) + Total(s.tasks, TaskRun, t => TaskWeight(t), r)
  }

  lemma TotalAppend<T(!new)>(s: seq<T>, x: T, f: T -> nat, w: T -> int, r: nat)
    ensures Total(s + [x], f, w, r) == Total(s, f, w, r) + Share(x, f, w, r)
  {
    assert Up(s + [x]) == s;
  }

  lemma {:induction false} TotalRemoveAt<T(!new)>(s: seq<T>, i: nat, f: T -> nat, w: T -> int, r: nat)
    requires i < |s|
    ensures Total(s, f, w, r) == Total(RemoveAt(s, i), f, w, r) + Share(s[i], f, w, r)
  {
    if i == |s| - 1 {
      assert RemoveAt(s, i) == Up(s);
    } else {
      TotalRemoveAt(Up(s), i, f, w, r);
      assert RemoveAt(s, i) == RemoveAt(Up(s), i) + [s[|s| - 1]];
      TotalAppend(RemoveAt(Up(s), i), s[|s| - 1], f, w, r);
    }
  }

  lemma {:induction false} TotalNonNegative<T(!new)>(s: seq<T>, f: T -> nat, w: T -> int, r: nat)
    requires forall x | x in s && f(x) == r :: 0 <= w(x)
    ensures 0 <= Total(s, f, w, r)
  {
    if s == [] {
    } else {
      assert s[|s| - 1] in s && forall x | x in Up(s) :: x in s;
      TotalNonNegative(Up(s), f, w, r);
    }
  }

  lemma PostWeight(limit: int, s: State, ok: bool, p: Packet, k: Cont, r: nat)
    ensures Weight(limit, Post(s, ok, p, k), r) == Weight(limit, s, r) + if RunOf(k) == r then Depth(k) + 1 else 0
  {
    TotalAppend(s.tasks, Task(ok, p, k), TaskRun, t => TaskWeight(t), r);
  }

  lemma SendWeight(limit: int, s: State, q: Request, r: nat)
    ensures Weight(limit, Send(s, q), r) == Weight(limit, s, r) + if RunOf(q.k) == r then RequestWeight(limit, q) else 0
  {
    TotalAppend(s.requests, q, RequestRun, x => RequestWeight(limit, x), r);
  }

  /** The requests of run `r` stand within the limit. */
  ghost predicate StepsWithin(limit: int, s: State, r: nat) {
    forall q | q in s.requests && RunOf(q.k) == r :: q.step <= limit
  }

  /** The event answers a request or runs a callback of run `r`. */
  ghost predicate Moves(s: State, e: Event, r: nat) {
    && Enabled(s, e)
    && match e
       case Start(_, _) => false
       case Deliver(i, _) => RunOf(s.requests[i].k) == r
       case Timeout(i) => RunOf(s.requests[i].k) == r
       case RunTask(i, _) => RunOf(s.tasks[i].k) == r
       case CleanPass(_) => false
  }

  /** How many of the events, one after another from `s`, move run `r`. */
  ghost function MovesOf(pol: Policy, s: State, es: seq<Event>, r: nat): nat
    decreases |es|
  {
    if es == [] then 0 else (if Moves(s, es[0], r) then 1 else 0) + MovesOf(pol, Step(pol, s, es[0]), es[1..], r)
  }

  /** From `s` to `u`, a verdict on `p` was posted, or its certificate asked for below the limit. */
  ghost predicate Judged(limit: int, s: State, u: State, p: Packet, k: Cont, step: int) {
    || (u.requests == s.requests
        && (u.tasks == s.tasks + [Task(true, p, k)] || u.tasks == s.tasks + [Task(false, p, k)]))
    || (u.tasks == s.tasks && step != limit
        && |u.requests| == |s.requests| + 1
        && var q := u.requests[|s.requests|]; u.requests == s.requests + [q] && q == Request(p, q.name, 3, step + 1, k))
  }

  lemma VerifyDataShape(pol: Policy, s: State, p: Packet, k: Cont, step: int)
    ensures Judged(pol.stepLimit, s, VerifyData(pol, s, p, k, step), p, k, step)
  {
    var u := VerifyData(pol, s, p, k, step);
    match Judge(pol, s.cache.entries, p, step)
    case Report(ok) =>
      assert u.tasks == s.tasks + [Task(ok, p, k)];
    case Touched(ok, n) =>
      assert u.tasks == s.tasks + [Task(ok, p, k)];
    case Fetch(n) =>
      assert u.requests == s.requests + [Request(p, n, 3, step + 1, k)];
  }

  lemma JudgedWeight(limit: int, s: State, u: State, p: Packet, k: Cont, step: int, r: nat)
    requires Judged(limit, s, u, p, k, step)
    requires StepsWithin(limit, s, r) && (RunOf(k) == r ==> step <= limit)
    ensures var w, w' := Weight(limit, s, r), Weight(limit, u, r);
            if RunOf(k) == r then w' < w + 5 * (limit - step) + Depth(k) + 3 else w' == w
    ensures StepsWithin(limit, u, r)
  {
    if u.requests == s.requests {
      TotalAppend(s.tasks, u.tasks[|s.tasks|], TaskRun, t => TaskWeight(t), r);
    } else {
      TotalAppend(s.requests, u.requests[|s.requests|], RequestRun, q => RequestWeight(limit, q), r);
    }
  }

  lemma VerifyDataWeight(pol: Policy, s: State, p: Packet, k: Cont, step: int, r: nat)
    requires StepsWithin(pol.stepLimit, s, r) && (RunOf(k) == r ==> step <= pol.stepLimit)
    ensures var w, w' := Weight(pol.stepLimit, s, r), Weight(pol.stepLimit, VerifyData(pol, s, p, k, step), r);
            if RunOf(k) == r then w' < w + 5 * (pol.stepLimit - step) + Depth(k) + 3 else w' == w
    ensures StepsWithin(pol.stepLimit, VerifyData(pol, s, p, k, step), r)
  {
    VerifyDataShape(pol, s, p, k, step);
    JudgedWeight(pol.stepLimit, s, VerifyData(pol, s, p, k, step), p, k, step, r);
  }

  /** A callback leaves the requests alone and posts at most one task, for the packet that waits above. */
  lemma CallbackShape(pol: Policy, s: State, t: Task, now: int)
    ensures var u := Callback(pol, s, t, now);
            && u.requests == s.requests
            && (u.tasks == s.tasks || (t.k.Signs? && exists ok :: u.tasks == s.tasks + [Task(ok, t.k.data, t.k.up)]))
  {
    if t.k.Signs? {
      var u := Callback(pol, s, t, now);
      assert u.tasks == s.tasks || u.tasks == s.tasks + [Task(true, t.k.data, t.k.up)]
             || u.tasks == s.tasks + [Task(false, t.k.data, t.k.up)];
    }
  }

  lemma CallbackWeight(pol: Policy, s: State, t: Task, now: int, r: nat)
    ensures var w, w' := Weight(pol.stepLimit, s, r), Weight(pol.stepLimit, Callback(pol, s, t, now), r);
            if RunOf(t.k) == r then w' <= w + Depth(t.k) else w' == w
    ensures Callback(pol, s, t, now).requests == s.requests
  {
    CallbackShape(pol, s, t, now);
    var u := Callback(pol, s, t, now);
    if u.tasks != s.tasks {
      var ok :| u.tasks == s.tasks + [Task(ok, t.k.data, t.k.up)];
      TotalAppend(s.tasks, Task(ok, t.k.data, t.k.up), TaskRun, x => TaskWeight(x), r);
    }
  }

  lemma TimeoutWeight(limit: int, s: State, q: Request, r: nat)
    requires StepsWithin(limit, s, r) && (RunOf(q.k) == r ==> q.step <= limit)
    ensures var w, w' := Weight(limit, s, r), Weight(limit, OnTimeout(s, q), r);
            if RunOf(q.k) == r then w' < w + RequestWeight(limit, q) else w' == w
    ensures StepsWithin(limit, OnTimeout(s, q), r)
  {
    if q.retry > 0 {
      SendWeight(limit, s, q.(retry := q.retry - 1), r);
    } else {
      PostWeight(limit, s, false, q.data, q.k, r);
    }
  }

  /** An event that moves a run strictly lowers what it has left to do; no other event changes it. */
  lemma EventLowersWeight(pol: Policy, s: State, e: Event, r: nat)
    requires StepsWithin(pol.stepLimit, s, r) && r < |s.starts|
    ensures var w, w' := Weight(pol.stepLimit, s, r), Weight(pol.stepLimit, Step(pol, s, e), r);
            if Moves(s, e, r) then w' < w else w' == w
    ensures StepsWithin(pol.stepLimit, Step(pol, s, e), r)
  {
    if Enabled(s, e) {
      match e
      case Start(p, step) =>
        VerifyDataWeight(pol, s.(starts := s.starts + [step]), p, App(|s.starts|), step, r);
      case Deliver(i, p) =>
        var q, s' := s.requests[i], s.(requests := RemoveAt(s.requests, i));
        assert q in s.requests;
        TotalRemoveAt(s.requests, i, RequestRun, x => RequestWeight(pol.stepLimit, x), r);
        VerifyDataWeight(pol, s', p, Signs(q.data, q.k), q.step, r);
      case Timeout(i) =>
        assert s.requests[i] in s.requests;
        TotalRemoveAt(s.requests, i, RequestRun, x => RequestWeight(pol.stepLimit, x), r);
        TimeoutWeight(pol.stepLimit, s.(requests := RemoveAt(s.requests, i)), s.requests[i], r);
      case RunTask(i, now) =>
        TotalRemoveAt(s.tasks, i, TaskRun, x => TaskWeight(x), r);
        CallbackWeight(pol, s.(tasks := RemoveAt(s.tasks, i)), s.tasks[i], now, r);
      case CleanPass(now) =>
    }
  }

  lemma {:induction false} MovesAreBounded(pol: Policy, s: State, es: seq<Event>, r: nat)
    requires StepsWithin(pol.stepLimit, s, r) && r < |s.starts|
    ensures MovesOf(pol, s, es, r) <= Weight(pol.stepLimit, s, r)
    decreases |es|
  {
    if es == [] {
      TotalNonNegative(s.requests, RequestRun, q => RequestWeight(pol.stepLimit, q), r);
      TotalNonNegative(s.tasks, TaskRun, t => TaskWeight(t), r);
    } else {
      EventLowersWeight(pol, s, es[0], r);
      StepPlaces(pol, s, es[0], r);
      MovesAreBounded(pol, Step(pol, s, es[0]), es[1..], r);
    }
  }

  /** From any reachable state, whatever happens, a run started within the limit moves at most `Weight` times. */
  lemma EachRunEnds(pol: Policy, es: seq<Event>, more: seq<Event>, r: nat)
    requires r < |Reach(pol, es).starts| && Reach(pol, es).starts[r] <= pol.stepLimit
    ensures MovesOf(pol, Reach(pol, es), more, r) <= Weight(pol.stepLimit, Reach(pol, es), r)
  {
    BudgetHolds(pol, es, r);
    MovesAreBounded(pol, Reach(pol, es), more, r);
  }

  /** A run started at `step` within the limit takes at most five events for each step left, and two more. */
  lemma WholeRunIsShort(pol: Policy, es: seq<Event>, p: Packet, step: int, more: seq<Event>)
    requires step <= pol.stepLimit
    ensures var s := Reach(pol, es);
            MovesOf(pol, Step(pol, s, Start(p, step)), more, |s.starts|) <= 5 * (pol.stepLimit - step) + 2
  {
    var s := Reach(pol, es);
    var r, s' := |s.starts|, s.(starts := s.starts + [step]);
    NothingBefore(pol, es);
    VerifyDataWeight(pol, s', p, App(r), step, r);
    MovesAreBounded(pol, Step(pol, s, Start(p, step)), more, r);
  }

  lemma {:induction false} TotalNone<T(!new)>(s: seq<T>, f: T -> nat, w: T -> int, r: nat)
    requires Count(s, f, r) == 0
    ensures Total(s, f, w, r) == 0 && forall x | x in s :: f(x) != r
  {
    if s == [] {
    } else {
      TotalNone(Up(s), f, w, r);
      assert forall x | x in s :: x in Up(s) || x == s[|s| - 1];
    }
  }

  /** A run that has not started weighs nothing. */
  lemma NothingBefore(pol: Policy, es: seq<Event>)
    ensures var s := Reach(pol, es);
            Weight(pol.stepLimit, s, |s.starts|) == 0 && StepsWithin(pol.stepLimit, s, |s.starts|)
  {
    var s := Reach(pol, es);
    RunsStaySingle(pol, es, |s.starts|);
    TotalNone(s.requests, RequestRun, q => RequestWeight(pol.stepLimit, q), |s.starts|);
    TotalNone(s.tasks, TaskRun, t => TaskWeight(t), |s.starts|);
  }

  /** A run that is not over can be moved. */
  lemma NotOverMoves(pol: Policy, es: seq<Event>, r: nat) returns (e: Event)
    requires var s := Reach(pol, es);
             r < |s.starts| && Count(s.outcomes, OutcomeRun, r) + Count(s.drops, DropRun, r) == 0
    ensures Moves(Reach(pol, es), e, r)
  {
    var s := Reach(pol, es);
    OneOutcomePerRun(pol, es, r);
    if i :| 0 <= i < |s.requests| && RunOf(s.requests[i].k) == r {
      e := Timeout(i);
    } else {
      var i :| 0 <= i < |s.tasks| && RunOf(s.tasks[i].k) == r;
      e := RunTask(i, 0);
    }
  }

  // Starting beyond the limit

  /** Every packet needs a certificate that is never at hand. */
  function Unanchored(limit: int): Policy {
    Policy([Rule(_ => true, _ => true)], [], [], map[], limit, 1,
           _ => Some(["key"]), (_, _) => false, _ => true, (_, _) => true, _ => 0)
  }

  function Answers(p: Packet, start: int, n: nat): seq<Event> {
    if n == 0 then [Start(p, start)] else Answers(p, start, n - 1) + [Deliver(0, p)]
  }

  lemma UnanchoredFetches(limit: int, s: State, p: Packet, step: int)
    requires step != limit && s.cache.entries == map[]
    ensures Judge(Unanchored(limit), s.cache.entries, p, step) == Fetch(["key"])
  {
    var pol := Unanchored(limit);
    assert pol.verify[0].matches(p) && pol.verify[0].satisfies(p);
    assert RequireVerify(pol, p) && SomeSatisfied(pol.verify, p) && !SomeSatisfied(pol.mustFail, p);
  }

  /** One request waits, for step `step` of run 0, after `sent` Interests. */
  ghost predicate Chasing(s: State, start: int, step: int, sent: nat) {
    && s.cache.entries == map[] && s.starts == [start] && s.sent[0] == sent
    && |s.requests| == 1 && s.requests[0].step == step && RunOf(s.requests[0].k) == 0
  }

  lemma ChaseOn(limit: int, s: State, p: Packet, start: int, step: int, sent: nat)
    requires step > limit && Chasing(s, start, step, sent)
    ensures Chasing(Step(Unanchored(limit), s, Deliver(0, p)), start, step + 1, sent + 1)
  {
    var r := s.requests[0];
    var left := s.(requests := RemoveAt(s.requests, 0));
    UnanchoredFetches(limit, left, p, step);
    assert Step(Unanchored(limit), s, Deliver(0, p))
        == VerifyData(Unanchored(limit), left, p, Signs(r.data, r.k), step);
  }

  lemma ChaseStarts(limit: int, p: Packet, start: int)
    requires start > limit
    ensures Chasing(Step(Unanchored(limit), Initial, Start(p, start)), start, start + 1, 1)
  {
    var s := Initial.(starts := [start]);
    UnanchoredFetches(limit, s, p, start);
    assert Initial.starts + [start] == [start];
  }

  /** The limit is tested with `==`, so a run started beyond it can be kept fetching while the network answers. */
  lemma {:induction false} BeyondTheLimitNothingStops(limit: int, p: Packet, start: int, n: nat)
    requires start > limit
    ensures Chasing(Reach(Unanchored(limit), Answers(p, start, n)), start, start + n + 1, n + 1)
  {
    var pol, es := Unanchored(limit), Answers(p, start, n);
    if n == 0 {
      assert Up(es) == [];
      ChaseStarts(limit, p, start);
    } else {
      assert Up(es) == Answers(p, start, n - 1);
      BeyondTheLimitNothingStops(limit, p, start, n - 1);
      ChaseOn(limit, Reach(pol, Up(es)), p, start, start + n, n);
    }
  }

  function Deliveries(p: Packet, n: nat): seq<Event> {
    if n == 0 then [] else [Deliver(0, p)] + Deliveries(p, n - 1)
  }

  lemma {:induction false} DeliveriesMove(limit: int, s: State, p: Packet, start: int, step: int, sent: nat, n: nat)
    requires step > limit && Chasing(s, start, step, sent)
    ensures MovesOf(Unanchored(limit), s, Deliveries(p, n), 0) == n
    decreases n
  {
    if n == 0 {
    } else {
      assert Deliveries(p, n)[1..] == Deliveries(p, n - 1);
      ChaseOn(limit, s, p, start, step, sent);
      DeliveriesMove(limit, Step(Unanchored(limit), s, Deliver(0, p)), p, start, step + 1, sent + 1, n - 1);
    }
  }

  /** Under no policy with this limit does a run started at `step`, in any reachable state, move more than `b` times. */
  ghost predicate EndsWithin(limit: int, step: int, b: nat) {
    forall pol: Policy, es, p, more | pol.stepLimit == limit ::
      MovesOf(pol, Step(pol, Reach(pol, es), Start(p, step)), more, |Reach(pol, es).starts|) <= b
  }

  /** There is a bound on the events of a run exactly when it starts within the limit. */
  lemma EndsExactlyWithinTheLimit(limit: int, step: int)
    ensures (exists b: nat :: EndsWithin(limit, step, b)) <==> step <= limit
  {
    if step <= limit {
      forall pol: Policy, es, p, more | pol.stepLimit == limit
        ensures MovesOf(pol, Step(pol, Reach(pol, es), Start(p, step)), more, |Reach(pol, es).starts|)
                <= 5 * (limit - step) + 2
      {
        WholeRunIsShort(pol, es, p, step, more);
      }
      assert EndsWithin(limit, step, 5 * (limit - step) + 2);
    } else {
      var pol, p := Unanchored(limit), Packet([], []);
      ChaseStarts(limit, p, step);
      forall b: nat | EndsWithin(limit, step, b) ensures false {
        DeliveriesMove(limit, Step(pol, Reach(pol, []), Start(p, step)), p, step, step + 1, 1, b + 1);
      }
    }
  }

  // A run without an outcome

  /** Packets named "data" need the certificate "key", which signs nothing; everything else is exempt. */
  const Barren := Policy([Rule(NamedData, NamedData)], [], [_ => true], map[], 9, 1,
                         _ => Some(["key"]), (_, _) => false, _ => true, (_, _) => true, _ => 0)

  predicate NamedData(p: Packet) {
    p.name == ["data"]
  }

  const Unverifiable := Packet(["data"], [])

  const BarrenKey := Packet(["key", "1"], [])

  lemma BarrenJudges()
    ensures Judge(Barren, map[], Unverifiable, 0) == Fetch(["key"])
    ensures Judge(Barren, map[], BarrenKey, 1) == Report(true)
  {
    assert Barren.verify[0].matches(Unverifiable) && Barren.verify[0].satisfies(Unverifiable);
    assert |BarrenKey.name| == 2 && !NamedData(BarrenKey) && Barren.exempt[0](BarrenKey);
  }

  lemma BarrenFetches()
    ensures var s := Step(Barren, Initial, Start(Unverifiable, 0));
            && s.cache == Initial.cache && s.starts == [0] && s.tasks == [] && s.outcomes == [] && s.drops == []
            && s.requests == [Request(Unverifiable, ["key"], 3, 1, App(0))]
  {
    BarrenJudges();
  }

  lemma BarrenDrops(s: State)
    requires s.cache == Initial.cache && s.tasks == [] && s.outcomes == [] && s.drops == []
    requires s.requests == [Request(Unverifiable, ["key"], 3, 1, App(0))]
    ensures var t := Step(Barren, Step(Barren, s, Deliver(0, BarrenKey)), RunTask(0, 0));
            && t.starts == s.starts && t.requests == [] && t.tasks == [] && t.outcomes == []
            && t.drops == [Drop(0, BarrenKey, Unverifiable, 0)]
  {
    BarrenJudges();
    var u := Step(Barren, s, Deliver(0, BarrenKey));
    assert u.tasks == [Task(true, BarrenKey, Signs(Unverifiable, App(0)))] && u.requests == [];
  }

  /** An exempt certificate in date that does not verify the packet ends its run without any callback. */
  lemma RunCanBeDropped()
    ensures var s := Reach(Barren, [Start(Unverifiable, 0), Deliver(0, BarrenKey), RunTask(0, 0)]);
            && s.starts == [0] && Idle(s, 0) && s.outcomes == []
            && s.drops == [Drop(0, BarrenKey, Unverifiable, 0)]
  {
    var e, f, g := Start(Unverifiable, 0), Deliver(0, BarrenKey), RunTask(0, 0);
    BarrenFetches();
    BarrenDrops(Step(Barren, Initial, e));
    ReachOn(Barren, [], e);
    ReachOn(Barren, [e], f);
    ReachOn(Barren, [e, f], g);
    assert [] + [e] == [e] && [e] + [f] == [e, f] && [e, f] + [g] == [e, f, g];
  }

  lemma ReachOn(pol: Policy, es: seq<Event>, e: Event)
    ensures Reach(pol, es + [e]) == Step(pol, Reach(pol, es), e)
  {
    assert Up(es + [e]) == es;
  }
}
