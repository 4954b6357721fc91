/** The queue itself (internal/remotejobs/queue.go): each call, made alone, is a run of the state machine's steps. */
module ConsentQueue {
  import opened Times
  import opened Wrappers
  import opened Consent

  datatype Status = Awaiting | DeclinedByOwner | NobodyAnswered | Ran | CannotRun

  datatype Told = Told(id: string, status: Status)

  function RequestsOf(cases: seq<Case>, ran: seq<nat>): seq<Request>
    requires forall t <- ran :: t < |cases|
  {
    seq(|ran|, i requires 0 <= i < |ran| => assert ran[i] in ran; cases[ran[i]].request)
  }

  /** Opening cases does not change which requests ran. */
  lemma MoreCases(cases: seq<Case>, more: seq<Case>, ran: seq<nat>)
    requires forall t <- ran :: t < |cases|
    ensures forall t <- ran :: t < |cases + more|
    ensures RequestsOf(cases + more, ran) == RequestsOf(cases, ran)
  {
    forall i | 0 <= i < |ran| ensures ran[i] < |cases| {
      assert ran[i] in ran;
    }
  }

  predicate ByArrival(list: seq<Request>) {
    forall i, j :: 0 <= i < j < |list| ==> list[i].receivedAt <= list[j].receivedAt
  }

  function InsertByArrival(list: seq<Request>, r: Request): seq<Request> {
    if list == [] then [r]
    else if r.receivedAt < list[0].receivedAt then [r] + list
    else [list[0]] + InsertByArrival(list[1..], r)
  }

  ghost predicate DistinctIds(list: seq<Request>) {
    forall i, j :: 0 <= i < j < |list| ==> list[i].id != list[j].id
  }

  lemma {:induction false} InsertHolds(list: seq<Request>, r: Request, x: Request)
    ensures x in InsertByArrival(list, r) <==> x in list || x == r
    decreases |list|
  {
    if list != [] {
      assert list == [list[0]] + list[1..];
      InsertHolds(list[1..], r, x);
    }
  }

  lemma {:induction false} InsertKeeps(list: seq<Request>, r: Request)
    requires ByArrival(list) && DistinctIds(list) && forall x <- list :: x.id != r.id
    ensures var l := InsertByArrival(list, r);
            ByArrival(l) && DistinctIds(l) && forall x :: x in l <==> x in list || x == r
    decreases |list|
  {
    var l := InsertByArrival(list, r);
    forall x ensures x in l <==> x in list || x == r {
      InsertHolds(list, r, x);
    }
    if list != [] && r.receivedAt >= list[0].receivedAt {
      var rest := InsertByArrival(list[1..], r);
      assert forall x <- list[1..] :: x in list;
      InsertKeeps(list[1..], r);
      forall k | 0 <= k < |rest| ensures ComesAfter(list[0], rest[k]) {
        assert rest[k] in rest;
        FirstComesFirst(list, r, rest[k]);
      }
      PutFirst(list[0], rest);
    }
  }

  predicate ComesAfter(a: Request, b: Request) {
    b.id != a.id && a.receivedAt <= b.receivedAt
  }

  lemma FirstComesFirst(list: seq<Request>, r: Request, x: Request)
    requires list != [] && ByArrival(list) && DistinctIds(list) && (forall y <- list :: y.id != r.id)
    requires x in list[1..] || (x == r && r.receivedAt >= list[0].receivedAt)
    ensures ComesAfter(list[0], x)
  {
    if x in list[1..] {
      var j :| 0 <= j < |list[1..]| && list[1..][j] == x;
      assert list[j + 1] == x;
    }
  }

  lemma PutFirst(a: Request, rest: seq<Request>)
    requires ByArrival(rest) && DistinctIds(rest) && forall k :: 0 <= k < |rest| ==> ComesAfter(a, rest[k])
    ensures ByArrival([a] + rest) && DistinctIds([a] + rest)
  {
    var l := [a] + rest;
    assert forall i :: 0 < i < |l| ==> l[i] == rest[i - 1];
  }

  lemma TrustOpens(trace: seq<Step>, now: Instant, span: int, held: seq<Request>)
    requires Possible(trace) && Lists(held, After(trace).pending) && After(trace).flight == map[]
    requires forall t <- After(trace).ran :: t < |After(trace).cases|
    ensures var s := Consent.Trust(now, span, held);
            && Possible(trace + [s])
            && var q, q' := After(trace), After(trace + [s]);
               && q'.pending == map[] && q'.trustUntil == now + span && q'.history == q.history && q'.ran == q.ran
               && Pend(q', held, |q.cases|, 0, Allowed)
               && (forall t <- q'.ran :: t < |q'.cases|) && RequestsOf(q'.cases, q'.ran) == RequestsOf(q.cases, q.ran)
  {
    hide After, Possible, RequestsOf, Open, Opened, Lists;
    OneMore(trace, Consent.Trust(now, span, held));
    OpenPends(After(trace).(pending := map[], trustUntil := now + span), held, Allowed);
    MoreCases(After(trace).cases, Opened(held, Allowed), After(trace).ran);
  }

  lemma ExpireOpens(trace: seq<Step>, now: Instant, declined: seq<Request>)
    requires Possible(trace) && Lists(declined, Overdue(After(trace).pending, now)) && After(trace).flight == map[]
    requires forall t <- After(trace).ran :: t < |After(trace).cases|
    ensures var s := Consent.Expire(now, declined);
            && Possible(trace + [s])
            && var q, q' := After(trace), After(trace + [s]);
               && q'.pending == q.pending - Overdue(q.pending, now).Keys && q'.trustUntil == q.trustUntil
               && q'.history == q.history && q'.ran == q.ran
               && Pend(q', declined, |q.cases|, 0, Expired)
               && (forall t <- q'.ran :: t < |q'.cases|) && RequestsOf(q'.cases, q'.ran) == RequestsOf(q.cases, q.ran)
  {
    hide After, Possible, RequestsOf, Open, Opened, Lists;
    var q := After(trace);
    OneMore(trace, Consent.Expire(now, declined));
    OpenPends(q.(pending := q.pending - Overdue(q.pending, now).Keys), declined, Expired);
    MoreCases(After(trace).cases, Opened(declined, Expired), After(trace).ran);
  }

  /** From the i-th on, the listed requests' cases are under way, and nothing else is. */
  ghost predicate Pend(q: Held, list: seq<Request>, base: nat, i: nat, outcome: Outcome) {
    && |q.cases| == base + |list|
    && (forall k :: 0 <= k < |list| ==> q.cases[base + k] == Case(list[k], outcome))
    && (forall t: nat :: t in q.flight <==> base + i <= t < base + |list|)
    && (forall t <- q.flight :: !q.flight[t])
  }

  lemma OpenPends(q: Held, list: seq<Request>, outcome: Outcome)
    requires q.flight == map[]
    ensures var q' := Open(q, list, outcome);
            && Pend(q', list, |q.cases|, 0, outcome)
            && q' == q.(cases := q.cases + Opened(list, outcome), flight := q'.flight)
  {
  }

  lemma PendNext(q: Held, q': Held, list: seq<Request>, base: nat, i: nat, outcome: Outcome)
    requires Pend(q, list, base, i, outcome) && i < |list|
    requires q'.cases == q.cases && q'.flight == q.flight - {base + i}
    ensures Pend(q', list, base, i + 1, outcome)
  {
  }

  class Queue {
    const runs: bool
    var pending: map<string, Request>
    var trustUntil: Instant
    var history: seq<Decision>
    var ran: seq<Request>
    var told: seq<Told>
    ghost var trace: seq<Step>

    /** The fields are what the steps so far come to. */
    ghost predicate Follows()
      reads this
    {
      && Possible(trace)
      && (forall t <- After(trace).ran :: t < |After(trace).cases|)
      && pending == After(trace).pending && trustUntil == After(trace).trustUntil && history == After(trace).history
      && ran == RequestsOf(After(trace).cases, After(trace).ran)
    }

    /** And between calls nothing is under way. */
    ghost predicate Valid()
      reads this
    {
      Follows() && After(trace).flight == map[]
    }

    constructor (runs: bool)
      ensures Valid() && this.runs == runs && trace == [] && pending == map[] && told == []
    {
      this.runs := runs;
      pending, trustUntil, history, ran, told, trace := map[], ZERO_TIME, [], [], [], [];
    }

    /** Runs a case, reports its answer and records the outcome. */
    method Settle(r: Request, outcome: Outcome, now: Instant, ghost t: nat)
      requires Follows() && t < |After(trace).cases| && After(trace).cases[t] == Case(r, outcome) && Consented(outcome)
      requires t in After(trace).flight && !After(trace).flight[t]
      modifies this
      ensures Follows() && trace == old(trace) + [Execute(t, runs), Record(t, now)]
      ensures After(trace).flight == old(After(trace).flight) - {t} && After(trace).cases == old(After(trace).cases)
      ensures pending == old(pending) && trustUntil == old(trustUntil)
      ensures ran == (if runs then old(ran) + [r] else old(ran))
      ensures history == Newest(old(history), Decision(r, outcome, now))
      ensures told == old(told) + [Told(r.id, if runs then Ran else CannotRun)]
    {
      ghost var q := After(trace);
      OneMore(trace, Execute(t, runs));
      OneMore(trace + [Execute(t, runs)], Record(t, now));
      assert trace + [Execute(t, runs)] + [Record(t, now)] == trace + [Execute(t, runs), Record(t, now)];
      if runs {
        ran := ran + [r];
        assert RequestsOf(q.cases, q.ran + [t]) == RequestsOf(q.cases, q.ran) + [r];
      }
      told := told + [Told(r.id, if runs then Ran else CannotRun)];
      history := Newest(history, Decision(r, outcome, now));
      trace := trace + [Execute(t, runs), Record(t, now)];
      assert q.flight[t := true] - {t} == q.flight - {t};
    }
  
    /** Whether the request is held for its owner; inside an allow window it runs at once. */
    method Receive(r: Request, now: Instant) returns (held: bool)
      requires Valid()
      modifies this
      ensures Valid() && held == !Trusted(old(trustUntil), now)
      ensures held ==> pending == old(pending)[r.id := Stamped(r, now)] && ran == old(ran) && history == old(history)
                       && told == old(told) + [Told(r.id, Awaiting)] && trace == old(trace) + [Consent.Receive(r, now)]
      ensures !held ==> pending == old(pending) && ran == (if runs then old(ran) + [Stamped(r, now)] else old(ran))
                        && history == Newest(old(history), Decision(Stamped(r, now), Auto, now))
                        && old(trace) + [Consent.Receive(r, now)] <= trace
      ensures trustUntil == old(trustUntil)
    {
      var req := if r.receivedAt == ZERO_TIME then r.(receivedAt := now) else r;
      OneMore(trace, Consent.Receive(r, now));
      ghost var t := |After(trace).cases|;
      MoreCases(After(trace).cases, Opened([req], Auto), After(trace).ran);
      trace := trace + [Consent.Receive(r, now)];
      if trustUntil != ZERO_TIME && now < trustUntil {
        Settle(req, Auto, now, t);
        return false;
      }
      pending := pending[r.id := req];
      told := told + [Told(r.id, Awaiting)];
      held := true;
    }

    /** Takes a held request out, for one outcome. */
    method TakeOut(id: string, outcome: Outcome) returns (r: Option<Request>)
      requires Valid() && (outcome == Allowed || outcome == Denied)
      modifies this
      ensures r == if id in old(pending) then Some(old(pending)[id]) else None
      ensures r.None? ==> Valid() && trace == old(trace) && pending == old(pending)
      ensures r.Some? ==> Follows() && trace == old(trace) + [Take(id, outcome)] && pending == old(pending) - {id}
                          && var t := |old(After(trace).cases)|;
                             After(trace).flight == map[t := false] && |After(trace).cases| == t + 1
                             && After(trace).cases[t] == Case(r.value, outcome)
      ensures trustUntil == old(trustUntil) && history == old(history) && ran == old(ran) && told == old(told)
    {
      if id !in pending {
        return None;
      }
      r := Some(pending[id]);
      OneMore(trace, Take(id, outcome));
      pending := pending - {id};
      ghost var n := |After(trace).cases|;
      MoreCases(After(trace).cases, Opened([r.value], outcome), After(trace).ran);
      trace := trace + [Take(id, outcome)];
      assert After(trace).flight == map[n := false];
    }

    /** Runs one held request; false when it is no longer waiting. */
    method Allow(id: string, now: Instant) returns (ok: bool)
      requires Valid()
      modifies this
      ensures Valid() && ok == (id in old(pending)) && trustUntil == old(trustUntil)
      ensures !ok ==> pending == old(pending) && history == old(history) && ran == old(ran) && told == old(told)
      ensures ok ==> pending == old(pending) - {id}
                     && ran == (if runs then old(ran) + [old(pending)[id]] else old(ran))
                     && history == Newest(old(history), Decision(old(pending)[id], Allowed, now))
    {
      ghost var t := |After(trace).cases|;
      var r := TakeOut(id, Allowed);
      if r.None? {
        return false;
      }
      Settle(r.value, Allowed, now, t);
      ok := true;
    }

    /** Refuses one held request: it is never run. */
    method Deny(id: string, now: Instant) returns (ok: bool)
      requires Valid()
      modifies this
      ensures Valid() && ok == (id in old(pending)) && trustUntil == old(trustUntil) && ran == old(ran)
      ensures !ok ==> pending == old(pending) && history == old(history) && told == old(told)
      ensures ok ==> pending == old(pending) - {id}
                     && history == Newest(old(history), Decision(old(pending)[id], Denied, now))
                     && told == old(told) + [Told(old(pending)[id].id, DeclinedByOwner)]
    {
      ghost var t := |After(trace).cases|;
      var r := TakeOut(id, Denied);
      if r.None? {
        return false;
      }
      told := told + [Told(r.value.id, DeclinedByOwner)];
      NoteDown(r.value, Denied, now, t);
      ok := true;
    }

    /** Records the outcome of a case that is done. */
    method NoteDown(r: Request, outcome: Outcome, now: Instant, ghost t: nat)
      requires Follows() && Enabled(After(trace), Record(t, now)) && After(trace).cases[t] == Case(r, outcome)
      modifies this`history, this`trace
      ensures Follows() && trace == old(trace) + [Record(t, now)]
      ensures history == Newest(old(history), Decision(r, outcome, now))
      ensures After(trace).flight == old(After(trace).flight) - {t} && After(trace).cases == old(After(trace).cases)
    {
      OneMore(trace, Record(t, now));
      history := Newest(history, Decision(r, outcome, now));
      trace := trace + [Record(t, now)];
    }

    method Untrust()
      requires Valid()
      modifies this`trustUntil, this`trace
      ensures Valid() && trustUntil == ZERO_TIME && trace == old(trace) + [Consent.Untrust]
    {
      OneMore(trace, Consent.Untrust);
      trustUntil := ZERO_TIME;
      trace := trace + [Consent.Untrust];
    }

    /** Opens an allow window and runs everything held, oldest first. */
    method Trust(span: int, now: Instant) returns (held: seq<Request>)
      requires Valid()
      modifies this
      ensures Valid() && pending == map[] && trustUntil == now + span
      ensures Lists(held, old(pending)) && ByArrival(held)
      ensures ran == if runs then old(ran) + held else old(ran)
      ensures old(trace) + [Consent.Trust(now, span, held)] <= trace
    {
      hide After, Possible, Newest;
      EveryCaseIsSettledOnce(trace);
      held := Listed(pending);
      TrustOpens(trace, now, span, held);
      trustUntil := now + span;
      pending := map[];
      ghost var base := |After(trace).cases|;
      trace := trace + [Consent.Trust(now, span, held)];
      SettleAll(held, now, base);
    }

    /** Runs a list of cases one after another. */
    method SettleAll(held: seq<Request>, now: Instant, ghost base: nat)
      requires Follows() && Pend(After(trace), held, base, 0, Allowed)
      modifies this
      ensures Valid() && old(trace) <= trace && pending == old(pending) && trustUntil == old(trustUntil)
      ensures ran == if runs then old(ran) + held else old(ran)
    {
      hide After, Possible, Newest, RequestsOf;
      var i := 0;
      while i < |held|
        invariant 0 <= i <= |held| && Follows() && Pend(After(trace), held, base, i, Allowed)
        invariant pending == old(pending) && trustUntil == old(trustUntil) && old(trace) <= trace
        invariant ran == if runs then old(ran) + held[..i] else old(ran)
      {
        ghost var q := After(trace);
        Settle(held[i], Allowed, now, base + i);
        PendNext(q, After(trace), held, base, i, Allowed);
        assert held[..i + 1] == held[..i] + [held[i]];
        i := i + 1;
      }
      assert held[..|held|] == held;
      assert After(trace).flight == map[];
    }

    /** Declines, for the owner, everything held longer than an hour. */
    method Expire(now: Instant) returns (declined: seq<Request>)
      requires Valid()
      modifies this
      ensures Valid() && trustUntil == old(trustUntil) && ran == old(ran)
      ensures Lists(declined, Overdue(old(pending), now))
      ensures pending == old(pending) - Overdue(old(pending), now).Keys
      ensures old(trace) + [Consent.Expire(now, declined)] <= trace
    {
      var late := map id | id in pending && now - pending[id].receivedAt > MAX_PENDING_AGE :: pending[id];
      hide After, Possible, Newest;
      EveryCaseIsSettledOnce(trace);
      declined := Listed(late);
      ExpireOpens(trace, now, declined);
      pending := pending - late.Keys;
      ghost var base := |After(trace).cases|;
      trace := trace + [Consent.Expire(now, declined)];
      DeclineAll(declined, now, base);
    }

    /** Answers and records a list of cases one after another, running none. */
    method DeclineAll(declined: seq<Request>, now: Instant, ghost base: nat)
      requires Follows() && Pend(After(trace), declined, base, 0, Expired)
      modifies this`told, this`history, this`trace
      ensures Valid() && old(trace) <= trace
    {
      hide After, Possible, Newest, RequestsOf;
      var i := 0;
      while i < |declined|
        invariant 0 <= i <= |declined| && Follows() && Pend(After(trace), declined, base, i, Expired)
        invariant old(trace) <= trace
      {
        ghost var q := After(trace);
        told := told + [Told(declined[i].id, NobodyAnswered)];
        NoteDown(declined[i], Expired, now, base + i);
        PendNext(q, After(trace), declined, base, i, Expired);
        i := i + 1;
      }
      assert After(trace).flight == map[];
    }

    /** A map's requests, oldest first. */
    method Listed(m: map<string, Request>) returns (list: seq<Request>)
      requires forall id <- m :: m[id].id == id
      ensures Lists(list, m) && ByArrival(list)
    {
      hide ByArrival;
      list := [];
      assert ByArrival(list) by { NoneByArrival(); }
      var left := m.Keys;
      while left != {}
        invariant left <= m.Keys && ByArrival(list) && DistinctIds(list)
        invariant forall r <- list :: r.id in m && m[r.id] == r && r.id !in left
        invariant forall id <- m :: id in left || m[id] in list
        decreases |left|
      {
        var id :| id in left;
        left := left - {id};
        InsertKeeps(list, m[id]);
        list := InsertByArrival(list, m[id]);
      }
    }
  }

  lemma NoneByArrival()
    ensures ByArrival([])
  {
  }
}
