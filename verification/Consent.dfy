/**
  A machine's incoming remote-help requests (internal/remotejobs/queue.go) as a state
  machine: every section of code under the queue's lock is one step, and the runs and
  answers between them may interleave in any way.
 */
module Consent {
  import opened Times

  datatype Request = Request(id: string, kind: string, params: string, receivedAt: Instant)

  datatype Outcome = Allowed | Denied | Auto | Expired

  datatype Decision = Decision(request: Request, outcome: Outcome, decidedAt: Instant)

  /** A request taken out of the queue, or run on arrival, and what for; its number is its place. */
  datatype Case = Case(request: Request, outcome: Outcome)

  const MAX_HISTORY := 30
  const MAX_PENDING_AGE := HOUR

  /** `flight` holds the cases not yet recorded, and whether each was answered. */
  datatype Held = Held(pending: map<string, Request>, trustUntil: Instant, history: seq<Decision>,
                       cases: seq<Case>, flight: map<nat, bool>, ran: seq<nat>, log: seq<(nat, Decision)>)

  const NONE_HELD := Held(map[], ZERO_TIME, [], [], map[], [], [])

  datatype Step =
    | Receive(request: Request, now: Instant)
    | Take(id: string, outcome: Outcome)
    | Trust(now: Instant, span: int, held: seq<Request>)
    | Untrust
    | Expire(now: Instant, overdue: seq<Request>)
    | Execute(ticket: nat, runs: bool)
    | Record(ticket: nat, now: Instant)

  predicate Trusted(until: Instant, now: Instant) {
    until != ZERO_TIME && now < until
  }

  predicate Consented(o: Outcome) {
    o == Allowed || o == Auto
  }

  /** A request without an arrival time is given one. */
  function Stamped(r: Request, now: Instant): Request {
    if r.receivedAt == ZERO_TIME then r.(receivedAt := now) else r
  }

  function Overdue(pending: map<string, Request>, now: Instant): map<string, Request> {
    map id | id in pending && now - pending[id].receivedAt > MAX_PENDING_AGE :: pending[id]
  }

  /** The list holds a map's requests, each once, in some order. */
  ghost predicate Lists(list: seq<Request>, m: map<string, Request>) {
    && (forall i :: 0 <= i < |list| ==> list[i].id in m && m[list[i].id] == list[i])
    && (forall i, j :: 0 <= i < j < |list| ==> list[i].id != list[j].id)
    && (forall id <- m :: m[id] in list)
  }

  function Newest(history: seq<Decision>, d: Decision): seq<Decision> {
    var all := [d] + history;
    if |all| > MAX_HISTORY then all[..MAX_HISTORY] else all
  }

  /** Cases opened for a list of requests. */
  function Opened(list: seq<Request>, outcome: Outcome): (c: seq<Case>)
    ensures |c| == |list| && forall i :: 0 <= i < |c| ==> c[i] == Case(list[i], outcome)
  {
    seq(|list|, i requires 0 <= i < |list| => Case(list[i], outcome))
  }

  function InFlight(flight: map<nat, bool>, from: nat, n: nat): (r: map<nat, bool>)
    ensures forall t: nat :: t in r <==> t in flight || from <= t < from + n
    ensures forall t: nat :: t in r ==> r[t] == if from <= t < from + n then false else flight[t]
  {
    if n == 0 then flight else InFlight(flight, from, n - 1)[from + n - 1 := false]
  }

  function Open(q: Held, list: seq<Request>, outcome: Outcome): Held {
    q.(cases := q.cases + Opened(list, outcome), flight := InFlight(q.flight, |q.cases|, |list|))
  }

  ghost predicate Enabled(q: Held, s: Step) {
    match s
    case Receive(_, _) => true
    case Take(id, o) => id in q.pending && (o == Allowed || o == Denied)
    case Trust(_, _, held) => Lists(held, q.pending)
    case Untrust => true
    case Expire(now, overdue) => Lists(overdue, Overdue(q.pending, now))
    case Execute(t, _) => t in q.flight && !q.flight[t] && t < |q.cases| && Consented(q.cases[t].outcome)
    case Record(t, _) => t in q.flight && t < |q.cases| && (Consented(q.cases[t].outcome) ==> q.flight[t])
  }

  ghost function Next(q: Held, s: Step): Held
    requires Enabled(q, s)
  {
    match s
    case Receive(r, now) =>
      if Trusted(q.trustUntil, now) then Open(q, [Stamped(r, now)], Auto)
      else q.(pending := q.pending[r.id := Stamped(r, now)])
    case Take(id, o) =>
      Open(q.(pending := q.pending - {id}), [q.pending[id]], o)
    case Trust(now, span, held) =>
      Open(q.(pending := map[], trustUntil := now + span), held, Allowed)
    case Untrust => q.(trustUntil := ZERO_TIME)
    case Expire(now, overdue) =>
      Open(q.(pending := q.pending - Overdue(q.pending, now).Keys), overdue, Expired)
    case Execute(t, runs) =>
      q.(flight := q.flight[t := true], ran := if runs then q.ran + [t] else q.ran)
    case Record(t, now) =>
      var d := Decision(q.cases[t].request, q.cases[t].outcome, now);
      q.(flight := q.flight - {t}, history := Newest(q.history, d), log := q.log + [(t, d)])
  }

  ghost predicate Possible(trace: seq<Step>)
    decreases |trace|, 0
  {
    trace == [] || (Possible(trace[..|trace| - 1]) && Enabled(After(trace[..|trace| - 1]), trace[|trace| - 1]))
  }

  /** The queue after a run of steps. */
  ghost function After(trace: seq<Step>): Held
    requires Possible(trace)
    decreases |trace|, 1
  {
    if trace == [] then NONE_HELD else Next(After(trace[..|trace| - 1]), trace[|trace| - 1])
  }

  lemma OneMore(trace: seq<Step>, s: Step)
    requires Possible(trace)
    ensures Possible(trace + [s]) <==> Enabled(After(trace), s)
    ensures Enabled(After(trace), s) ==> After(trace + [s]) == Next(After(trace), s)
  {
    assert (trace + [s])[..|trace|] == trace;
  }

  // ------------------------------------------------------------ settled exactly once

  predicate Logged(q: Held, t: nat) {
    exists k :: 0 <= k < |q.log| && q.log[k].0 == t
  }

  predicate Decides(d: Decision, c: Case) {
    d.request == c.request && d.outcome == c.outcome
  }

  /** Every case is either under way or recorded, and recorded once, with its own request and outcome. */
  ghost predicate SettledOnce(q: Held) {
    && (forall t <- q.flight :: t < |q.cases| && !Logged(q, t))
    && (forall t: nat :: t < |q.cases| ==> t in q.flight || Logged(q, t))
    && (forall j, k :: 0 <= j < k < |q.log| ==> q.log[j].0 != q.log[k].0)
    && (forall k :: 0 <= k < |q.log| ==> q.log[k].0 < |q.cases| && Decides(q.log[k].1, q.cases[q.log[k].0]))
  }

  /** A case runs at most once, and only if its outcome was consent. */
  ghost predicate RunsAreConsented(q: Held) {
    && (forall j, k :: 0 <= j < k < |q.ran| ==> q.ran[j] != q.ran[k])
    && (forall t <- q.ran :: t < |q.cases| && Consented(q.cases[t].outcome) && (t in q.flight ==> q.flight[t]))
  }

  /** The history is the newest of the log. */
  predicate HistoryIsNewest(q: Held) {
    && |q.history| == (if |q.log| < MAX_HISTORY then |q.log| else MAX_HISTORY)
    && forall i :: 0 <= i < |q.history| ==> q.history[i] == q.log[|q.log| - 1 - i].1
  }

  predicate KeyedById(q: Held) {
    forall id <- q.pending :: q.pending[id].id == id
  }

  ghost predicate Kept(q: Held) {
    SettledOnce(q) && RunsAreConsented(q) && HistoryIsNewest(q) && KeyedById(q)
  }

  lemma OpenKeeps(q: Held, list: seq<Request>, outcome: Outcome)
    requires SettledOnce(q) && RunsAreConsented(q)
    ensures SettledOnce(Open(q, list, outcome)) && RunsAreConsented(Open(q, list, outcome))
  {
    var q' := Open(q, list, outcome);
    assert forall t :: Logged(q', t) <==> Logged(q, t);
    assert forall t: nat :: t < |q.cases| ==> q'.cases[t] == q.cases[t];
  }

  lemma LoggedGrows(q: Held, t: nat, now: Instant, u: nat)
    requires Enabled(q, Record(t, now))
    ensures Logged(Next(q, Record(t, now)), u) <==> Logged(q, u) || u == t
  {
    var q' := Next(q, Record(t, now));
    var n := |q.log|;
    assert q'.log[n].0 == t && q'.log[..n] == q.log;
    if Logged(q, u) {
      var k :| 0 <= k < n && q.log[k].0 == u;
      assert q'.log[k].0 == u;
    }
    if Logged(q', u) {
      var k :| 0 <= k < |q'.log| && q'.log[k].0 == u;
      assert k < n ==> q.log[k].0 == u;
    }
  }

  lemma RecordKeepsSettled(q: Held, t: nat, now: Instant)
    requires SettledOnce(q) && Enabled(q, Record(t, now))
    ensures SettledOnce(Next(q, Record(t, now)))
  {
    hide Logged, Newest;
    var q' := Next(q, Record(t, now));
    var n := |q.log|;
    forall u: nat ensures Logged(q', u) <==> Logged(q, u) || u == t {
      LoggedGrows(q, t, now, u);
    }
    assert q'.log[..n] == q.log && q'.cases == q.cases;
    forall k | 0 <= k < n ensures q'.log[k] == q.log[k] && q'.log[k].0 != t {
      IsLogged(q, k);
    }
  }

  lemma IsLogged(q: Held, k: nat)
    requires k < |q.log|
    ensures Logged(q, q.log[k].0)
  {
  }

  lemma RecordKeeps(q: Held, t: nat, now: Instant)
    requires Kept(q) && Enabled(q, Record(t, now))
    ensures Kept(Next(q, Record(t, now)))
  {
    RecordKeepsSettled(q, t, now);
    hide SettledOnce;
    var q' := Next(q, Record(t, now));
    assert q'.log[|q.log|].1 == q'.history[0];
    assert forall i :: 0 < i < |q'.history| ==> q'.history[i] == q.history[i - 1];
  }

  lemma StepKeeps(q: Held, s: Step)
    requires Kept(q) && Enabled(q, s)
    ensures Kept(Next(q, s))
  {
    hide SettledOnce, RunsAreConsented;
    match s
    case Receive(r, now) =>
      OpenKeeps(q, [Stamped(r, now)], Auto);
      PendingDoesNotMatter(q, q.pending[r.id := Stamped(r, now)], q.trustUntil);
    case Take(id, o) =>
      PendingDoesNotMatter(q, q.pending - {id}, q.trustUntil);
      OpenKeeps(q.(pending := q.pending - {id}), [q.pending[id]], o);
    case Trust(now, span, held) =>
      PendingDoesNotMatter(q, map[], now + span);
      OpenKeeps(q.(pending := map[], trustUntil := now + span), held, Allowed);
    case Untrust =>
      PendingDoesNotMatter(q, q.pending, ZERO_TIME);
    case Expire(now, overdue) =>
      var left := q.pending - Overdue(q.pending, now).Keys;
      PendingDoesNotMatter(q, left, q.trustUntil);
      OpenKeeps(q.(pending := left), overdue, Expired);
    case Execute(t, runs) =>
      ExecuteKeeps(q, t, runs);
    case Record(t, now) =>
      RecordKeeps(q, t, now);
  }

  lemma PendingDoesNotMatter(q: Held, pending: map<string, Request>, until: Instant)
    requires SettledOnce(q) && RunsAreConsented(q)
    ensures var q' := q.(pending := pending, trustUntil := until); SettledOnce(q') && RunsAreConsented(q')
  {
    var q' := q.(pending := pending, trustUntil := until);
    assert forall t :: Logged(q', t) <==> Logged(q, t);
  }

  lemma ExecuteKeeps(q: Held, t: nat, runs: bool)
    requires SettledOnce(q) && RunsAreConsented(q) && Enabled(q, Execute(t, runs))
    ensures var q' := Next(q, Execute(t, runs)); SettledOnce(q') && RunsAreConsented(q')
  {
    var q' := Next(q, Execute(t, runs));
    assert forall u :: Logged(q', u) <==> Logged(q, u);
    assert t !in q.ran;
  }

  /**
    Whatever interleaves: each entry taken out of the queue is settled exactly once, runs
    at most once and only if it was allowed, and the history is the newest decisions.
   */
  lemma {:induction false} EveryCaseIsSettledOnce(trace: seq<Step>)
    requires Possible(trace)
    ensures Kept(After(trace))
    decreases |trace|
  {
    if trace != [] {
      EveryCaseIsSettledOnce(trace[..|trace| - 1]);
      hide Kept;
      StepKeeps(After(trace[..|trace| - 1]), trace[|trace| - 1]);
    }
  }

  // ------------------------------------------------------------ only with consent

  /** When the allow window ends, as the owner's own steps say. */
  function WindowOf(trace: seq<Step>): Instant {
    if trace == [] then ZERO_TIME
    else
      var s := trace[|trace| - 1];
      if s.Trust? then s.now + s.span
      else if s.Untrust? then ZERO_TIME
      else WindowOf(trace[..|trace| - 1])
  }

  /**
    The i-th step opened the case: the owner allowing the very request held then, by
    itself or with everything held, or its arrival inside an open window.
   */
  ghost predicate Grants(trace: seq<Step>, i: nat, t: nat, r: Request)
    requires i < |trace|
  {
    && Possible(trace[..i]) && Possible(trace[..i + 1])
    && |After(trace[..i]).cases| <= t < |After(trace[..i + 1]).cases|
    && var s, held := trace[i], After(trace[..i]).pending;
       || (s.Take? && s.outcome == Allowed && s.id in held && held[s.id] == r)
       || (s.Trust? && r in s.held && r.id in held && held[r.id] == r)
       || (s.Receive? && Trusted(WindowOf(trace[..i]), s.now) && r == Stamped(s.request, s.now))
  }

  ghost predicate Granted(trace: seq<Step>, t: nat, r: Request) {
    exists i: nat :: i < |trace| && Grants(trace, i, t, r)
  }

  ghost predicate ConsentedCasesWereGranted(trace: seq<Step>)
    requires Possible(trace)
  {
    && After(trace).trustUntil == WindowOf(trace)
    && forall t: nat :: t < |After(trace).cases| && Consented(After(trace).cases[t].outcome) ==>
         Granted(trace, t, After(trace).cases[t].request)
  }

  lemma GrantsGrow(front: seq<Step>, s: Step, t: nat, r: Request)
    requires Granted(front, t, r)
    ensures Granted(front + [s], t, r)
  {
    hide Possible, After;
    var trace := front + [s];
    var i: nat :| i < |front| && Grants(front, i, t, r);
    assert trace[..i] == front[..i] && trace[..i + 1] == front[..i + 1] && trace[i] == front[i];
    assert Grants(trace, i, t, r);
  }

  /** A case a step opens with consent is granted by that step. */
  lemma TheStepGrants(front: seq<Step>, s: Step, t: nat)
    requires Possible(front) && Enabled(After(front), s) && After(front).trustUntil == WindowOf(front)
    requires |After(front).cases| <= t < |Next(After(front), s).cases| && Consented(Next(After(front), s).cases[t].outcome)
    ensures Granted(front + [s], t, Next(After(front), s).cases[t].request)
  {
    var trace, n := front + [s], |front|;
    OneMore(front, s);
    hide Possible, After;
    assert trace[..n] == front && trace[..n + 1] == trace && trace[n] == s;
    assert Grants(trace, n, t, Next(After(front), s).cases[t].request);
  }

  lemma {:induction false} GrantsCarryOn(trace: seq<Step>)
    requires Possible(trace)
    ensures ConsentedCasesWereGranted(trace)
    decreases |trace|
  {
    if trace != [] {
      var front, s := trace[..|trace| - 1], trace[|trace| - 1];
      assert trace == front + [s];
      GrantsCarryOn(front);
      OneMore(front, s);
      hide Possible, After, Granted;
      var q, q' := After(front), After(trace);
      forall t: nat | t < |q'.cases| && Consented(q'.cases[t].outcome)
        ensures Granted(trace, t, q'.cases[t].request)
      {
        if t < |q.cases| {
          assert q'.cases[t] == q.cases[t];
          GrantsGrow(front, s, t, q.cases[t].request);
        } else {
          TheStepGrants(front, s, t);
        }
      }
    }
  }

  /**
    Nothing runs on the machine but what its owner allowed, or what arrived while they were
    allowing everything: what ran was opened by such a step, for the request held then.
   */
  lemma NothingRunsWithoutConsent(trace: seq<Step>, t: nat)
    requires Possible(trace) && t in After(trace).ran
    ensures t < |After(trace).cases| && Granted(trace, t, After(trace).cases[t].request)
  {
    hide After, Possible, Granted;
    EveryCaseIsSettledOnce(trace);
    GrantsCarryOn(trace);
  }

  // ------------------------------------------------------------ nothing is forgotten

  /** A request is in the queue, or is a case opened since. */
  predicate HeldOrOpened(q: Held, r: Request, since: nat) {
    || (r.id in q.pending && q.pending[r.id] == r)
    || exists t :: since <= t < |q.cases| && q.cases[t].request == r
  }

  lemma AReceivedRequestIsThere(q: Held, r: Request, now: Instant)
    ensures HeldOrOpened(Next(q, Receive(r, now)), Stamped(r, now), |q.cases|)
  {
    var q' := Next(q, Receive(r, now));
    if Trusted(q.trustUntil, now) {
      assert q'.cases[|q.cases|].request == Stamped(r, now);
    }
  }

  lemma ItStaysThere(q: Held, s: Step, r: Request, since: nat)
    requires Enabled(q, s) && HeldOrOpened(q, r, since) && since <= |q.cases|
    requires s.Receive? ==> s.request.id != r.id
    ensures HeldOrOpened(Next(q, s), r, since)
  {
    var q' := Next(q, s);
    assert |q.cases| <= |q'.cases| && forall t :: 0 <= t < |q.cases| ==> q'.cases[t] == q.cases[t];
    if r.id in q.pending && q.pending[r.id] == r && !(r.id in q'.pending && q'.pending[r.id] == r) {
      LeftTheQueue(q, s, r);
    }
  }

  lemma LeftTheQueue(q: Held, s: Step, r: Request)
    requires Enabled(q, s) && r.id in q.pending && q.pending[r.id] == r
    requires r.id !in Next(q, s).pending
    ensures exists t :: |q.cases| <= t < |Next(q, s).cases| && Next(q, s).cases[t].request == r
  {
    var q', n := Next(q, s), |q.cases|;
    if s.Take? {
      assert q'.cases[n].request == r;
    } else {
      var list := if s.Trust? then s.held else s.overdue;
      assert r in list;
      var i :| 0 <= i < |list| && list[i] == r;
      assert q'.cases[n + i].request == r;
    }
  }

  /**
    A request that arrived is still held, or has a case opened since, unless another with
    its identifier arrived after it.
   */
  lemma {:induction false} NoRequestIsForgotten(trace: seq<Step>, i: nat)
    requires Possible(trace) && i < |trace| && trace[i].Receive?
    requires forall j :: i < j < |trace| && trace[j].Receive? ==> trace[j].request.id != trace[i].request.id
    ensures Possible(trace[..i]) && |After(trace[..i]).cases| <= |After(trace).cases|
    ensures HeldOrOpened(After(trace), Stamped(trace[i].request, trace[i].now), |After(trace[..i]).cases|)
    decreases |trace|
  {
    hide HeldOrOpened;
    var n := |trace| - 1;
    var front, s := trace[..n], trace[n];
    assert trace == front + [s];
    OneMore(front, s);
    if i == n {
      AReceivedRequestIsThere(After(front), s.request, s.now);
    } else {
      assert front[..i] == trace[..i] && front[i] == trace[i];
      NoRequestIsForgotten(front, i);
      ItStaysThere(After(front), s, Stamped(trace[i].request, trace[i].now), |After(trace[..i]).cases|);
    }
  }

  /** An hour after its arrival a request is declined, and not before: every other one stays held. */
  lemma ARequestIsDeclinedExactlyWhen(q: Held, now: Instant, overdue: seq<Request>, id: string)
    requires Enabled(q, Expire(now, overdue)) && id in q.pending && q.pending[id].id == id
    ensures var q' := Next(q, Expire(now, overdue));
            var declined := exists t :: |q.cases| <= t < |q'.cases| && q'.cases[t] == Case(q.pending[id], Expired);
            && (declined <==> now - q.pending[id].receivedAt > 3_600 * SECOND)
            && (if declined then id !in q'.pending else id in q'.pending && q'.pending[id] == q.pending[id])
  {
    var q', n := Next(q, Expire(now, overdue)), |q.cases|;
    if now - q.pending[id].receivedAt > 3_600 * SECOND {
      var late := Overdue(q.pending, now);
      assert id in late && late[id] == q.pending[id];
      assert late[id] in overdue;
      var i :| 0 <= i < |overdue| && overdue[i] == q.pending[id];
      assert q'.cases[n + i] == Case(q.pending[id], Expired);
    } else {
      assert id !in Overdue(q.pending, now);
      forall t | n <= t < |q'.cases| ensures q'.cases[t] != Case(q.pending[id], Expired) {
        assert overdue[t - n].id != id;
      }
    }
  }
}
