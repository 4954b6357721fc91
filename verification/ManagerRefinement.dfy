/**
  The token manager's calls are runs of the protocol: what `Get` and `Renew` do to
  the object is an adoption, a rotation and its queueing, in that order, in `Rotation`.
 */
module ManagerRefinement {
  import opened Wrappers
  import opened Times
  import opened Credentials
  import opened Rotation
  import M = TokenManagers

  /** The manager object holds the login the protocol's manager `m` holds, and nothing waits. */
  predicate Matches(s: State, m: ActorId, h: M.Held) {
    m in s.managers && s.managers[m].cred == h.cred && s.managers[m].unqueued.None?
  }

  /** The login a call would refresh from. */
  function Source(h: M.Held, c: M.Call): Credential {
    match c
    case GetCall(w) => if Stale(h.cred, w.entered) then M.AdoptForGet(h.cred, w.reload) else h.cred
    case RenewCall(bad, w) => h.cred
  }

  /** Whether the call asks the token service for a refresh, and with which token. */
  predicate Spends(h: M.Held, c: M.Call) {
    |M.Step(h, c).0.spent| > |h.spent|
  }

  function SpentBy(h: M.Held, c: M.Call): string
    requires Spends(h, c)
  {
    M.Step(h, c).0.spent[|h.spent|]
  }

  /**
    What the call meets is what the protocol allows: the reload answer is a blob the
    account has held, and the token service honours a token only while it works.
   */
  predicate Truthful(s: State, m: ActorId, h: M.Held, c: M.Call, read: Blob, lifetime: nat)
    requires m in s.managers
  {
    var w, a := c.w, s.managers[m].account;
    && (w.reload.Some? ==> a in s.past && read in s.past[a] && ParseCredential(read) == w.reload.value)
    && (M.Succeeds(w.reply) && Spends(h, c) ==>
          && w.reply.lifetime == lifetime && Mints(s, w.reply.refresh, w.replied)
          && SpentBy(h, c) in s.live)
  }

  /** The protocol steps a call amounts to. */
  function StepsOf(m: ActorId, h: M.Held, c: M.Call, read: Blob): seq<Step> {
    var h' := M.Step(h, c).0;
    var rotated := |h'.queued| != |h.queued|;
    var adopted := if rotated then Source(h, c) else h'.cred;
    (if adopted != h.cred then [Adopt(m, read)] else [])
    + (if rotated then [Refresh(m, h'.cred, c.w.replied), Enqueue(m)] else [])
  }

  /** Every call is a run of the protocol that ends with the manager holding what the object holds. */
  lemma CallsAreProtocolRuns(s: State, m: ActorId, h: M.Held, c: M.Call, read: Blob, lifetime: nat)
    requires Matches(s, m, h) && Truthful(s, m, h, c, read, lifetime)
    ensures var steps, h' := StepsOf(m, h, c, read), M.Step(h, c).0;
            Possible(s, steps, lifetime) &&
            var s' := Run(s, steps, lifetime);
            && Matches(s', m, h') && (h'.queued != h.queued ==> Spends(h, c) && s'.live == s.live - {SpentBy(h, c)} + {h'.cred.refresh})
            && s'.managers[m].account == s.managers[m].account
            && s'.queue == (if h'.queued == h.queued then s.queue else s.queue[s.managers[m].account := h'.cred])
            && s'.row == s.row && s'.flush == s.flush
  {
    var h' := M.Step(h, c).0;
    var rotated := |h'.queued| != |h.queued|;
    var adopted := if rotated then Source(h, c) else h'.cred;
    assert h'.queued == h.queued || h'.queued == h.queued + [h'.cred];
    if adopted != h.cred {
      assert ParseCredential(read) == adopted && Enabled(s, Adopt(m, read), lifetime);
      var s1 := Next(s, Adopt(m, read), lifetime);
      assert s1.managers[m].cred == adopted;
      var steps := StepsOf(m, h, c, read);
      if rotated {
        RotationRuns(s1, m, h'.cred, c.w.replied, lifetime);
        assert steps[1..] == [Refresh(m, h'.cred, c.w.replied), Enqueue(m)];
      } else {
        assert steps[1..] == [];
      }
      assert steps[0] == Adopt(m, read);
      assert Possible(s, steps, lifetime) && Run(s, steps, lifetime) == Run(s1, steps[1..], lifetime);
    } else if rotated {
      RotationRuns(s, m, h'.cred, c.w.replied, lifetime);
      assert StepsOf(m, h, c, read) == [Refresh(m, h'.cred, c.w.replied), Enqueue(m)];
    }
  }

  lemma RotationRuns(s: State, m: ActorId, got: Credential, at: Instant, lifetime: nat)
    requires Enabled(s, Refresh(m, got, at), lifetime)
    ensures var steps := [Refresh(m, got, at), Enqueue(m)];
            Possible(s, steps, lifetime) &&
            var s' := Run(s, steps, lifetime);
            && m in s'.managers && s'.managers[m] == Manager(s.managers[m].account, got, None)
            && s'.live == s.live - {s.managers[m].cred.refresh} + {got.refresh}
            && s'.queue == s.queue[s.managers[m].account := got]
            && s'.row == s.row && s'.flush == s.flush
  {
    var s1 := Next(s, Refresh(m, got, at), lifetime);
    var steps := [Refresh(m, got, at), Enqueue(m)];
    assert steps[1..] == [Enqueue(m)] && steps[1..][1..] == [];
    var s2 := Next(s1, Enqueue(m), lifetime);
    assert Possible(s1, steps[1..], lifetime) && Run(s1, steps[1..], lifetime) == s2;
    assert Possible(s, steps, lifetime) && Run(s, steps, lifetime) == s2;
  }
}
