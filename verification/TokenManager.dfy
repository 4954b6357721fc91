/**
  One account's token manager (internal/gateway/refresh.go): the object that holds
  a login, hands out its access token and spends its refresh token.
 */
module TokenManagers {
  import opened Wrappers
  import opened Times
  import opened Credentials

  /** The token service's answer to one refresh: an error, or the tokens it issued. */
  datatype Reply = Refused | Issued(access: string, refresh: string, lifetime: int)

  /**
    What one call meets outside the manager. `reload` is the stored credential, if a
    reload is wired and answers; the four instants are the clock as the call reads it:
    on entry, after adopting a stored credential, when the reply is decoded, and when
    a failed refresh falls back on the current token.
   */
  datatype World = World(
    reload: Option<Credential>, reply: Reply,
    entered: Instant, adopted: Instant, replied: Instant, fallback: Instant)

  datatype Failure = RefreshFailed

  /** The manager's state: the login held, every rotation handed to `onRefresh`, and every refresh token sent to the service. */
  datatype Held = Held(cred: Credential, queued: seq<Credential>, spent: seq<string>)

  /** The outcome of a call, with the last instant at which the clock was read. */
  datatype Answer = Answer(token: Result<string, Failure>, at: Instant)

  predicate Succeeds(reply: Reply) {
    reply.Issued? && reply.access != ""
  }

  function CredentialOf(reply: Reply, at: Instant): Credential
    requires Succeeds(reply)
  {
    Credential(reply.access, reply.refresh, at + reply.lifetime)
  }

  /** The login `get` refreshes from: the stored one when it is newer and can be refreshed. */
  function AdoptForGet(c: Credential, reload: Option<Credential>): Credential {
    if reload.Some? && reload.value.refresh != "" && NewerThan(reload.value, c) then reload.value else c
  }

  function GetStep(h: Held, w: World): (Held, Answer) {
    if !Stale(h.cred, w.entered) then (h, Answer(Ok(h.cred.access), w.entered))
    else
      var cred := AdoptForGet(h.cred, w.reload);
      if cred != h.cred && !Stale(cred, w.adopted) then (h.(cred := cred), Answer(Ok(cred.access), w.adopted))
      else
        var spent := h.spent + [cred.refresh];
        if Succeeds(w.reply) then
          var rotated := CredentialOf(w.reply, w.replied);
          (Held(rotated, h.queued + [rotated], spent), Answer(Ok(rotated.access), w.replied))
        else if cred.access != "" && w.fallback < cred.expires then
          (Held(cred, h.queued, spent), Answer(Ok(cred.access), w.fallback))
        else (Held(cred, h.queued, spent), Answer(Err(RefreshFailed), w.fallback))
  }

  function RenewStep(h: Held, bad: string, w: World): (Held, Answer) {
    if h.cred.access != bad then (h, Answer(Ok(h.cred.access), w.entered))
    else if w.reload.Some? && w.reload.value.access != "" && w.reload.value.access != bad && NewerThan(w.reload.value, h.cred) then
      (h.(cred := w.reload.value), Answer(Ok(w.reload.value.access), w.entered))
    else
      var spent := h.spent + [h.cred.refresh];
      if Succeeds(w.reply) then
        var rotated := CredentialOf(w.reply, w.replied);
        (Held(rotated, h.queued + [rotated], spent), Answer(Ok(rotated.access), w.replied))
      else (h.(spent := spent), Answer(Err(RefreshFailed), w.entered))
  }

  /** The manager as the object the gateway shares between an account's members. */
  class TokenManager {
    var cred: Credential
    var queued: seq<Credential> // what onRefresh has been called with, oldest first
    var spent: seq<string>      // what the token service has been asked to refresh, oldest first

    function Value(): Held
      reads this
    {
      Held(cred, queued, spent)
    }

    constructor (cred: Credential)
      ensures Value() == Held(cred, [], [])
    {
      this.cred := cred;
      this.queued, this.spent := [], [];
    }

    method Refresh(token: string, reply: Reply, at: Instant) returns (r: Result<Credential, Failure>)
      modifies this`spent
      ensures spent == old(spent) + [token]
      ensures r == if Succeeds(reply) then Ok(CredentialOf(reply, at)) else Err(RefreshFailed)
    {
      spent := spent + [token];
      match reply
      case Refused => r := Err(RefreshFailed);
      case Issued(access, refresh, lifetime) =>
        if access == "" {
          r := Err(RefreshFailed);
        } else {
          r := Ok(Credential(access, refresh, at + lifetime));
        }
    }

    /** A usable access token, refreshing first when the one held is close to expiry. */
    method Get(w: World) returns (token: Result<string, Failure>)
      modifies this
      ensures (Value(), token) == (GetStep(old(Value()), w).0, GetStep(old(Value()), w).1.token)
      ensures !Stale(old(cred), w.entered) ==> Value() == old(Value()) && token == Ok(old(cred.access))
      ensures var newer := w.reload.Some? && w.reload.value.refresh != "" && old(cred).expires < w.reload.value.expires;
              Stale(old(cred), w.entered) ==>
                if newer && !Stale(w.reload.value, w.adopted) then
                  Value() == Held(w.reload.value, old(queued), old(spent)) && token == Ok(w.reload.value.access)
                else spent == old(spent) + [if newer then w.reload.value.refresh else old(cred.refresh)]
    {
      if !Stale(cred, w.entered) {
        return Ok(cred.access);
      }
      if w.reload.Some? && w.reload.value.refresh != "" && NewerThan(w.reload.value, cred) {
        cred := w.reload.value;
        if !Stale(cred, w.adopted) {
          return Ok(cred.access);
        }
      }
      var r := Refresh(cred.refresh, w.reply, w.replied);
      if r.Err? {
        if cred.access != "" && w.fallback < cred.expires {
          return Ok(cred.access);
        }
        return Err(r.error);
      }
      cred := r.value;
      queued := queued + [r.value];
      return Ok(cred.access);
    }

    /** A token other than the one Anthropic just refused. */
    method Renew(bad: string, w: World) returns (token: Result<string, Failure>)
      modifies this
      ensures (Value(), token) == (RenewStep(old(Value()), bad, w).0, RenewStep(old(Value()), bad, w).1.token)
      ensures old(cred.access) != bad ==> Value() == old(Value()) && token == Ok(old(cred.access))
      ensures var offered := w.reload.Some? && w.reload.value.access !in {"", bad} && old(cred).expires < w.reload.value.expires;
              old(cred.access) == bad ==>
                if offered then Value() == Held(w.reload.value, old(queued), old(spent)) && token == Ok(w.reload.value.access)
                else spent == old(spent) + [old(cred.refresh)]
    {
      if cred.access != bad {
        return Ok(cred.access);
      }
      if w.reload.Some? && w.reload.value.access != "" && w.reload.value.access != bad && NewerThan(w.reload.value, cred) {
        cred := w.reload.value;
        return Ok(cred.access);
      }
      var r := Refresh(cred.refresh, w.reply, w.replied);
      if r.Err? {
        return Err(r.error);
      }
      cred := r.value;
      queued := queued + [r.value];
      return Ok(cred.access);
    }
  }

  // ------------------------------------------------------------ what each call does

  /** A login that is not close to its expiry is answered as it is: nothing is spent, read or queued. */
  lemma AFreshLoginIsAnswered(h: Held, w: World)
    requires h.cred.access != "" && w.entered < h.cred.expires - 10 * MINUTE
    ensures GetStep(h, w) == (h, Answer(Ok(h.cred.access), w.entered))
  {
  }

  /**
    A stored login that is newer and can be refreshed is taken in place of one close to its
    expiry: its token is answered while it is good for ten minutes, and otherwise it is the
    one that is spent, never the login held before.
   */
  lemma ANewerStoredLoginIsTaken(h: Held, w: World, r: Credential)
    requires h.cred.access == "" || h.cred.expires - 10 * MINUTE <= w.entered
    requires w.reload == Some(r) && r.refresh != "" && h.cred.expires < r.expires
    ensures var (h', a) := GetStep(h, w);
            if r.access != "" && w.adopted < r.expires - 10 * MINUTE then
              h' == Held(r, h.queued, h.spent) && a == Answer(Ok(r.access), w.adopted)
            else
              && h'.spent == h.spent + [r.refresh]
              && (!Succeeds(w.reply) ==> h'.cred == r && h'.queued == h.queued)
              && (!Succeeds(w.reply) ==> (a.token == if r.access != "" && w.fallback < r.expires then Ok(r.access) else Err(RefreshFailed)))
              && (Succeeds(w.reply) ==> IsRotation(h, h', a, w))
    ensures forall since, lifetime :: WellTimed(w, since, lifetime) ==> r.expires <= GetStep(h, w).0.cred.expires
  {
  }

  /** The service's answer is held, queued and its token handed out. */
  predicate IsRotation(h: Held, h': Held, a: Answer, w: World)
    requires Succeeds(w.reply)
  {
    var got := Credential(w.reply.access, w.reply.refresh, w.replied + w.reply.lifetime);
    h'.cred == got && h'.queued == h.queued + [got] && a == Answer(Ok(got.access), w.replied)
  }

  /** A stored login that is not newer, or cannot be refreshed, is never held: the manager spends its own. */
  lemma AnOlderStoredLoginIsNotTaken(h: Held, w: World)
    requires h.cred.access == "" || h.cred.expires - 10 * MINUTE <= w.entered
    requires w.reload.Some? ==> w.reload.value.refresh == "" || w.reload.value.expires <= h.cred.expires
    ensures var (h', a) := GetStep(h, w);
            && h'.spent == h.spent + [h.cred.refresh]
            && (!Succeeds(w.reply) ==> h'.cred == h.cred && h'.queued == h.queued)
            && (!Succeeds(w.reply) ==> (a.token == if h.cred.access != "" && w.fallback < h.cred.expires then Ok(h.cred.access) else Err(RefreshFailed)))
            && (Succeeds(w.reply) ==> IsRotation(h, h', a, w))
  {
  }

  /** While the service and the store answer, a token handed out by `get` is good for ten more minutes. */
  lemma AnAnsweredTokenLasts(h: Held, w: World)
    requires Succeeds(w.reply) && w.reply.lifetime > 10 * MINUTE
    ensures var (h', a) := GetStep(h, w); a.token == Ok(h'.cred.access) && a.at + 10 * MINUTE < h'.cred.expires
  {
  }

  /**
    After a refusal: one who was refused a token the manager no longer holds gets the one it
    does; otherwise a newer stored login with another token is taken and nothing spent, or the
    manager's own is spent.
   */
  lemma ARefusedTokenIsReplaced(h: Held, bad: string, w: World)
    ensures var (h', a) := RenewStep(h, bad, w);
            var offered := w.reload.Some? && w.reload.value.access !in {"", bad} && h.cred.expires < w.reload.value.expires;
            if h.cred.access != bad then h' == h && a.token == Ok(h.cred.access)
            else if offered then h' == Held(w.reload.value, h.queued, h.spent) && a.token == Ok(w.reload.value.access)
            else
              && h'.spent == h.spent + [h.cred.refresh]
              && (Succeeds(w.reply) ==> IsRotation(h, h', a, w))
              && (!Succeeds(w.reply) ==> h'.cred == h.cred && h'.queued == h.queued && a.token.Err?)
    ensures var a := RenewStep(h, bad, w).1;
            a.token.Ok? && (w.reply.Issued? ==> w.reply.access != bad) ==> a.token.value != bad
  {
  }

  // ------------------------------------------------------------ over every run

  datatype Call = GetCall(w: World) | RenewCall(bad: string, w: World)

  function Step(h: Held, c: Call): (Held, Answer) {
    match c
    case GetCall(w) => GetStep(h, w)
    case RenewCall(bad, w) => RenewStep(h, bad, w)
  }

  function Run(h: Held, calls: seq<Call>): Held
    decreases |calls|
  {
    if calls == [] then h else Run(Step(h, calls[0]).0, calls[1..])
  }

  /**
    The clock runs forward, and a credential, whoever obtained it, expires one fixed
    lifetime after an instant that has passed.
   */
  predicate WellTimed(w: World, since: Instant, lifetime: int) {
    && since <= w.entered <= w.adopted <= w.replied
    && w.adopted <= w.fallback
    && (w.reload.Some? ==> w.reload.value.expires <= w.entered + lifetime)
    && (w.reply.Issued? ==> w.reply.lifetime == lifetime)
  }

  function Finished(w: World): Instant {
    if w.replied < w.fallback then w.fallback else w.replied
  }

  predicate TimelyRun(calls: seq<Call>, since: Instant, lifetime: int)
    decreases |calls|
  {
    calls == [] || (WellTimed(calls[0].w, since, lifetime) && TimelyRun(calls[1..], Finished(calls[0].w), lifetime))
  }

  /** Nothing held was issued in the future. */
  predicate Issued(h: Held, now: Instant, lifetime: int) {
    h.cred.expires <= now + lifetime
  }

  lemma OneCallNeverGoesBack(h: Held, c: Call, since: Instant, lifetime: int)
    requires lifetime > 0 && Issued(h, since, lifetime) && WellTimed(c.w, since, lifetime)
    ensures var h' := Step(h, c).0;
            && h.cred.expires <= h'.cred.expires
            && Issued(h', Finished(c.w), lifetime)
            // A rotation is queued when it is obtained, and is the login then held.
            && (h'.queued == h.queued || h'.queued == h.queued + [h'.cred])
            && (h'.cred != h.cred ==> NewerThan(h'.cred, h.cred) || h'.queued == h.queued + [h'.cred])
    ensures c.GetCall? && Step(h, c).1.token.Ok? ==>
              var a := Step(h, c).1;
              a.token.value == Step(h, c).0.cred.access && a.at < Step(h, c).0.cred.expires
  {
  }

  /**
    For one manager, under any sequence of calls, reload answers and refresh
    outcomes: the held credential's expiry never goes back, from the start of the
    run or from any point in it.
   */
  lemma {:induction false} ExpiryNeverGoesBack(h: Held, calls: seq<Call>, since: Instant, lifetime: int)
    requires lifetime > 0 && Issued(h, since, lifetime) && TimelyRun(calls, since, lifetime)
    ensures forall i, j :: 0 <= i <= j <= |calls| ==>
              Run(h, calls[..i]).cred.expires <= Run(h, calls[..j]).cred.expires
    decreases |calls|
  {
    if calls == [] {
    } else {
      var h1 := Step(h, calls[0]).0;
      OneCallNeverGoesBack(h, calls[0], since, lifetime);
      ExpiryNeverGoesBack(h1, calls[1..], Finished(calls[0].w), lifetime);
      forall i, j | 0 <= i <= j <= |calls|
        ensures Run(h, calls[..i]).cred.expires <= Run(h, calls[..j]).cred.expires
      {
        if i > 0 {
          RunTail(h, calls, i);
          RunTail(h, calls, j);
        } else if j > 0 {
          RunTail(h, calls, j);
          assert calls[1..][..0] == [];
          assert Run(h1, calls[1..][..0]).cred.expires <= Run(h1, calls[1..][..j - 1]).cred.expires;
        }
      }
    }
  }

  lemma RunTail(h: Held, calls: seq<Call>, j: nat)
    requires 0 < j <= |calls|
    ensures Run(h, calls[..j]) == Run(Step(h, calls[0]).0, calls[1..][..j - 1])
  {
    assert calls[..j][1..] == calls[1..][..j - 1];
  }

  /** Every token `get` returns, anywhere in a run, is unexpired when it is returned. */
  lemma {:induction false} EveryTokenIsUnexpired(h: Held, calls: seq<Call>, k: nat, since: Instant, lifetime: int)
    requires lifetime > 0 && Issued(h, since, lifetime) && TimelyRun(calls, since, lifetime)
    requires k < |calls| && calls[k].GetCall?
    ensures var before := Run(h, calls[..k]);
            var (after, a) := Step(before, calls[k]);
            a.token.Ok? ==> a.token.value == after.cred.access && a.at < after.cred.expires
    decreases |calls|
  {
    OneCallNeverGoesBack(h, calls[0], since, lifetime);
    if k > 0 {
      RunTail(h, calls, k);
      EveryTokenIsUnexpired(Step(h, calls[0]).0, calls[1..], k - 1, Finished(calls[0].w), lifetime);
    } else {
      assert calls[..0] == [];
    }
  }

  /**
    Every rotation obtained in a run was queued, in order, each one newer than the
    one before it or obtained at the same instant; and the login held at the end is
    no older than the last.
   */
  lemma {:induction false} EveryRotationIsQueued(h: Held, calls: seq<Call>, since: Instant, lifetime: int)
    requires lifetime > 0 && Issued(h, since, lifetime) && TimelyRun(calls, since, lifetime)
    requires h.queued != [] ==> h.queued[|h.queued| - 1].expires <= h.cred.expires
    ensures var end := Run(h, calls);
            && h.queued <= end.queued
            && (end.queued != [] ==> end.queued[|end.queued| - 1].expires <= end.cred.expires)
            && forall i :: |h.queued| < i < |end.queued| ==> end.queued[i - 1].expires <= end.queued[i].expires
    decreases |calls|
  {
    if calls == [] {
    } else {
      OneCallNeverGoesBack(h, calls[0], since, lifetime);
      var h1 := Step(h, calls[0]).0;
      EveryRotationIsQueued(h1, calls[1..], Finished(calls[0].w), lifetime);
      var end := Run(h, calls);
      assert h1.queued <= end.queued;
      if |h1.queued| < |end.queued| && |h1.queued| > |h.queued| {
        FirstLaterRotation(h1, calls[1..], Finished(calls[0].w), lifetime);
      }
    }
  }

  /** A rotation made later in a run is no older than the login held before it. */
  lemma {:induction false} FirstLaterRotation(h: Held, calls: seq<Call>, since: Instant, lifetime: int)
    requires lifetime > 0 && Issued(h, since, lifetime) && TimelyRun(calls, since, lifetime)
    requires |h.queued| < |Run(h, calls).queued|
    requires h.queued <= Run(h, calls).queued
    ensures h.cred.expires <= Run(h, calls).queued[|h.queued|].expires
    decreases |calls|
  {
    if calls == [] {
    } else {
      OneCallNeverGoesBack(h, calls[0], since, lifetime);
      var h1 := Step(h, calls[0]).0;
      QueueOnlyGrows(h1, calls[1..]);
      if h1.queued == h.queued {
        FirstLaterRotation(h1, calls[1..], Finished(calls[0].w), lifetime);
      }
    }
  }

  lemma {:induction false} QueueOnlyGrows(h: Held, calls: seq<Call>)
    ensures h.queued <= Run(h, calls).queued
    decreases |calls|
  {
    if calls == [] {
    } else {
      QueueOnlyGrows(Step(h, calls[0]).0, calls[1..]);
    }
  }
}
