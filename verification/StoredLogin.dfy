/**
  That what is obtained is stored: a commit stores what it was given, one flush empties the
  queue into the row, and within one sign-in a token that still works is never lost, from
  the step that obtained it to the row a drained queue leaves.
 */
module StoredLogin {
  import opened Wrappers
  import opened Times
  import opened Credentials
  import opened Rotation
  import opened KeptRotations
  import opened SingleSignIn
  import opened LiveLogin

  // ------------------------------------------------------------ one commit

  /** The row after a commit holds a login as new as the one committed, and that very one unless the row's was newer. */
  predicate HoldsCommitted(before: map<AccountId, Blob>, after: map<AccountId, Blob>, a: AccountId, c: Credential) {
    && a in before && a in after
    && var was, now := ParseCredential(before[a]), ParseCredential(after[a]);
       && Stamp(c.expires) <= now.expires
       && (was.expires <= c.expires ==> now == Credential(c.access, c.refresh, Stamp(c.expires)))
       && (was.expires > c.expires ==> after[a] == before[a])
  }

  lemma StoreHolds(b: Blob, c: Credential)
    requires 0 < c.expires && c.refresh != ""
    ensures var b' := StoreDecision(b, c);
            && Stamp(c.expires) <= ParseCredential(b').expires
            && (ParseCredential(b).expires <= c.expires ==> ParseCredential(b') == Credential(c.access, c.refresh, Stamp(c.expires)))
            && (ParseCredential(b).expires > c.expires ==> b' == b)
  {
    UpdateThenParse(b, c);
    StampBounds(c.expires);
    StoreNeverGoesBack(b, c);
  }

  /** `diagnose` stores what it obtained. */
  lemma DiagnoseStores(s: State, p: ActorId, lifetime: nat)
    requires Sound(s, lifetime) && Enabled(s, ProbeCommit(p), lifetime) && s.probes[p].account in s.row
    ensures var s' := Next(s, ProbeCommit(p), lifetime);
            HoldsCommitted(s.row, s'.row, s.probes[p].account, s.probes[p].cred) && p !in s'.probes
  {
    hide StoreDecision, UpdateCredential, ParseCredential;
    StoreHolds(s.row[s.probes[p].account], s.probes[p].cred);
  }

  /** And so does a flush. */
  lemma AFlushStores(s: State, a: AccountId, lifetime: nat)
    requires Sound(s, lifetime) && Enabled(s, FlushCommit(a), lifetime) && a in s.row
    ensures HoldsCommitted(s.row, Next(s, FlushCommit(a), lifetime).row, a, s.flush.todo[a])
  {
    hide StoreDecision, UpdateCredential, ParseCredential;
    StoreHolds(s.row[a], s.flush.todo[a]);
  }

  /** Within one sign-in what `diagnose` obtained, while it works, is the stored token afterwards. */
  lemma AWorkingRotationIsStored(s: State, p: ActorId, lifetime: nat)
    requires Sound(s, lifetime) && Enabled(s, ProbeCommit(p), lifetime) && s.probes[p].account in s.row
    requires Located(s, s.probes[p].account) && s.probes[p].cred.refresh in s.live
    ensures var a, c, s' := s.probes[p].account, s.probes[p].cred, Next(s, ProbeCommit(p), lifetime);
            a in s'.row && StoredToken(s', a) == Credential(c.access, c.refresh, Stamp(c.expires))
  {
    hide StoreDecision, UpdateCredential, ParseCredential;
    var a, c := s.probes[p].account, s.probes[p].cred;
    assert s.probes[p] == Probe(a, c);
    ProbesPend(s, a, p, c);
    DiagnoseStores(s, p, lifetime);
  }

  /** One flush of a resting writer takes an account's rotation off the queue and into the row. */
  lemma OneFlushEmptiesTheQueue(s: State, a: AccountId, lifetime: nat)
    requires Sound(s, lifetime) && s.flush.Idle? && a in s.queue
    ensures var steps := [FlushBegin] + ([FlushCommit(a)] + ([FlushSettle] + [FlushEnd]));
            Possible(s, steps, lifetime) &&
            var s' := Run(s, steps, lifetime);
            && s'.queue == s.queue - {a} && s'.flush.Idle?
            && (a in s.row ==> HoldsCommitted(s.row, s'.row, a, s.queue[a]))
            && (forall b :: b != a ==> (b in s'.row <==> b in s.row) && (b in s.row ==> s'.row[b] == s.row[b]))
  {
    hide Sound, HoldsCommitted, Possible, Run, Stored;
    var s1 := Next(s, FlushBegin, lifetime);
    SoundNext(s, FlushBegin, lifetime);
    var s2 := Next(s1, FlushCommit(a), lifetime);
    OnlyThatRowChanges(s1, a, lifetime);
    if a in s.row {
      AFlushStores(s1, a, lifetime);
    }
    var s3 := Next(s2, FlushSettle, lifetime);
    var s4 := Next(s3, FlushEnd, lifetime);
    RunsOn(s3, FlushEnd, [], lifetime);
    NoMore(s4, lifetime);
    assert [FlushEnd] + [] == [FlushEnd];
    RunsOn(s2, FlushSettle, [FlushEnd], lifetime);
    RunsOn(s1, FlushCommit(a), [FlushSettle] + [FlushEnd], lifetime);
    RunsOn(s, FlushBegin, [FlushCommit(a)] + ([FlushSettle] + [FlushEnd]), lifetime);
  }

  lemma OnlyThatRowChanges(s: State, a: AccountId, lifetime: nat)
    requires Enabled(s, FlushCommit(a), lifetime)
    ensures forall b :: b != a ==> var s' := Next(s, FlushCommit(a), lifetime); (b in s'.row <==> b in s.row) && (b in s.row ==> s'.row[b] == s.row[b])
    ensures var s' := Next(s, FlushCommit(a), lifetime); s'.queue == s.queue && s'.flush == Writing(s.flush.todo, Some(a))
  {
  }

  lemma NoMore(s: State, lifetime: nat)
    ensures Possible(s, [], lifetime) && Run(s, [], lifetime) == s
  {
  }

  lemma RunsOn(s: State, step: Step, more: seq<Step>, lifetime: nat)
    requires Enabled(s, step, lifetime)
    ensures Possible(s, [step] + more, lifetime) <==> Possible(Next(s, step, lifetime), more, lifetime)
    ensures Possible(s, [step] + more, lifetime) ==> Run(s, [step] + more, lifetime) == Run(Next(s, step, lifetime), more, lifetime)
  {
    assert ([step] + more)[1..] == more;
  }

  // ------------------------------------------------------------ a token that works stays known

  lemma WhatCouldBeReadCanBe(s: State, step: Step, a: AccountId, t: string, lifetime: nat)
    requires Enabled(s, step, lifetime) && Reads(s, a, t)
    ensures Reads(Next(s, step, lifetime), a, t)
  {
    var b :| a in s.past && b in s.past[a] && ParseCredential(b).refresh == t;
    assert b in Next(s, step, lifetime).past[a];
  }

  /** `diagnose` does not give up on the token. */
  predicate KeepsTheToken(s: State, step: Step, a: AccountId, t: string) {
    step.ProbeFails? ==> !(step.p in s.probes && s.probes[step.p] == Probe(a, s.probes[step.p].cred) && s.probes[step.p].cred.refresh == t)
  }

  /** A working token that is known is known after any step that leaves it working and the account on the panel. */
  lemma TheWorkingTokenStaysKnown(s: State, step: Step, a: AccountId, t: string, lifetime: nat)
    requires Sound(s, lifetime) && Chained(s, a) && Located(s, a) && a in s.row && Enabled(s, step, lifetime)
    requires Known(s, a, t) && t in s.live && KeepsTheToken(s, step, a, t)
    ensures Known(Next(s, step, lifetime), a, t)
  {
    hide Sound, OneLive, Known, ProbesAlone, LiveIsNewest, WaitingIsCleared, Clears;
    var s' := Next(s, step, lifetime);
    assert Placed(s, a, t);
    if Reads(s, a, t) {
      WhatCouldBeReadCanBe(s, step, a, t, lifetime);
      KnownByAny(s', a, t);
    } else if m :| MidRotation(s, a, m) && s.managers[m].unqueued.value.refresh == t {
      AHeldRotationStaysKnown(s, step, a, m, lifetime);
    } else if p :| ProbeKnows(s, a, p, t) {
      AProbedRotationStaysKnown(s, step, a, p, t, lifetime);
    } else if a in s.queue && s.queue[a].refresh == t {
      AQueuedRotationStaysKnown(s, step, a, t, lifetime);
    } else {
      TheRowCanBeRead(s, a, lifetime);
    }
  }

  lemma AHeldRotationStaysKnown(s: State, step: Step, a: AccountId, m: ActorId, lifetime: nat)
    requires Sound(s, lifetime) && Enabled(s, step, lifetime) && MidRotation(s, a, m)
    ensures Known(Next(s, step, lifetime), a, s.managers[m].unqueued.value.refresh)
  {
    var s' := Next(s, step, lifetime);
    assert ManagerSound(s, s.managers[m], lifetime);
    assert ManagerKnows(s', a, m, s.managers[m].cred.refresh);
  }

  lemma AProbedRotationStaysKnown(s: State, step: Step, a: AccountId, p: ActorId, t: string, lifetime: nat)
    requires Sound(s, lifetime) && Located(s, a) && a in s.row && Enabled(s, step, lifetime)
    requires ProbeKnows(s, a, p, t) && t in s.live && KeepsTheToken(s, step, a, t)
    ensures Known(Next(s, step, lifetime), a, t)
  {
    hide Located, Sound, Next, Known;
    if step == ProbeCommit(p) {
      AWorkingRotationIsStored(s, p, lifetime);
      SoundNext(s, step, lifetime);
      TheRowCanBeRead(Next(s, step, lifetime), a, lifetime);
      KnownByAny(Next(s, step, lifetime), a, t);
    } else {
      AProbeGoesOn(s, step, a, p, t, lifetime);
      KnownByAny(Next(s, step, lifetime), a, t);
    }
  }

  lemma AProbeGoesOn(s: State, step: Step, a: AccountId, p: ActorId, t: string, lifetime: nat)
    requires Enabled(s, step, lifetime) && ProbeKnows(s, a, p, t) && KeepsTheToken(s, step, a, t) && step != ProbeCommit(p)
    ensures ProbeHolds(Next(s, step, lifetime), a, t)
  {
    assert s.probes[p] == Probe(a, s.probes[p].cred);
    assert ProbeKnows(Next(s, step, lifetime), a, p, t);
  }

  lemma AQueuedRotationStaysKnown(s: State, step: Step, a: AccountId, t: string, lifetime: nat)
    requires Sound(s, lifetime) && Chained(s, a) && a in s.row && FlushAgrees(s, a) && Enabled(s, step, lifetime)
    requires a in s.queue && s.queue[a].refresh == t && t in s.live && !Reads(s, a, t)
    ensures Known(Next(s, step, lifetime), a, t)
  {
    hide OneLive, StoreDecision, UpdateCredential, ParseCredential, Sound, Reads;
    var s' := Next(s, step, lifetime);
    assert WriterKnows(s, a, t);
    assert forall m :: KnownBeside(s, a, m, t);
    assert step.Enqueue? && s.managers[step.m].account == a ==> MidRotation(s, a, step.m);
    TheRowCanBeRead(s, a, lifetime);
    assert WriterKnows(s', a, t);
  }

  // ------------------------------------------------------------ over every run

  lemma SpentStaysSpent(s: State, step: Step, t: string, lifetime: nat)
    requires Enabled(s, step, lifetime) && t in s.minted && t !in s.live
    ensures var s' := Next(s, step, lifetime); t in s'.minted && t !in s'.live
  {
  }

  lemma MintedStays(s: State, step: Step, t: string, lifetime: nat)
    requires Enabled(s, step, lifetime) && t in s.minted
    ensures t in Next(s, step, lifetime).minted
  {
  }

  lemma {:induction false} NeverAlive(s: State, steps: seq<Step>, t: string, lifetime: nat)
    requires Possible(s, steps, lifetime) && t in s.minted && t !in s.live
    ensures t !in Run(s, steps, lifetime).live
    decreases |steps|
  {
    hide Next;
    if steps != [] {
      SpentStaysSpent(s, steps[0], t, lifetime);
      NeverAlive(Next(s, steps[0], lifetime), steps[1..], t, lifetime);
    }
  }

  /** An account that is gone from the panel does not come back under its identifier. */
  lemma {:induction false} GoneStaysGone(s: State, steps: seq<Step>, a: AccountId, lifetime: nat)
    requires Possible(s, steps, lifetime) && a in s.past && a !in s.row
    ensures a !in Run(s, steps, lifetime).row
    decreases |steps|
  {
    hide Next;
    if steps != [] {
      GoneNext(s, steps[0], a, lifetime);
      GoneStaysGone(Next(s, steps[0], lifetime), steps[1..], a, lifetime);
    }
  }

  lemma GoneNext(s: State, step: Step, a: AccountId, lifetime: nat)
    requires Enabled(s, step, lifetime) && a in s.past && a !in s.row
    ensures var s' := Next(s, step, lifetime); a in s'.past && a !in s'.row
  {
  }

  lemma PastStays(s: State, step: Step, a: AccountId, lifetime: nat)
    requires Enabled(s, step, lifetime) && a in s.past
    ensures a in Next(s, step, lifetime).past
  {
  }

  predicate TokenKept(s: State, steps: seq<Step>, a: AccountId, t: string, lifetime: nat)
    requires Possible(s, steps, lifetime)
    decreases |steps|
  {
    steps == [] || (KeepsTheToken(s, steps[0], a, t) && TokenKept(Next(s, steps[0], lifetime), steps[1..], a, t, lifetime))
  }

  /**
    Within one sign-in a token that is known and works at the start of a run and still works
    at its end is known at its end, if the account is still on the panel and `diagnose` did
    not give up on it.
   */
  lemma {:induction false} TheWorkingTokenIsNeverLost(s: State, steps: seq<Step>, a: AccountId, t: string, lifetime: nat)
    requires Sound(s, lifetime) && Chained(s, a) && Located(s, a) && a in s.row
    requires Possible(s, steps, lifetime) && ClearSignIn(s, steps, a, lifetime) && TokenKept(s, steps, a, t, lifetime)
    requires Known(s, a, t) && t in Run(s, steps, lifetime).live && a in Run(s, steps, lifetime).row
    ensures Known(Run(s, steps, lifetime), a, t)
    decreases |steps|
  {
    hide Chained, Located, Next, Known, Clears, KeepsTheToken, Sound;
    if steps != [] {
      var s1 := Next(s, steps[0], lifetime);
      WorksUntilTheEnd(s, steps, a, t, lifetime);
      TheWorkingTokenStaysKnown(s, steps[0], a, t, lifetime);
      SoundNext(s, steps[0], lifetime);
      ChainedNext(s, steps[0], a, lifetime);
      LocatedNext(s, steps[0], a, lifetime);
      TheWorkingTokenIsNeverLost(s1, steps[1..], a, t, lifetime);
    }
  }

  /** What works, and who is on the panel, at the end of a run did and was at each of its steps. */
  lemma WorksUntilTheEnd(s: State, steps: seq<Step>, a: AccountId, t: string, lifetime: nat)
    requires Sound(s, lifetime) && Possible(s, steps, lifetime) && steps != [] && Known(s, a, t) && a in s.row
    requires t in Run(s, steps, lifetime).live && a in Run(s, steps, lifetime).row
    ensures t in s.live && a in Next(s, steps[0], lifetime).row
  {
    hide Next, Known, Run;
    RunSound(s, steps, lifetime);
    KnownIsMinted(s, a, t, lifetime);
    NoEmptyTokens(Run(s, steps, lifetime), lifetime);
    if t !in s.live {
      NeverAlive(s, steps, t, lifetime);
    }
    var s1 := Next(s, steps[0], lifetime);
    PastStays(s, steps[0], a, lifetime);
    if a !in s1.row {
      RunStep(s, steps, lifetime);
      GoneStaysGone(s1, steps[1..], a, lifetime);
    }
  }

  lemma RunStep(s: State, steps: seq<Step>, lifetime: nat)
    requires Possible(s, steps, lifetime) && steps != []
    ensures Run(s, steps, lifetime) == Run(Next(s, steps[0], lifetime), steps[1..], lifetime)
  {
  }

  lemma {:induction false} RunSound(s: State, steps: seq<Step>, lifetime: nat)
    requires Sound(s, lifetime) && Possible(s, steps, lifetime)
    ensures Sound(Run(s, steps, lifetime), lifetime)
    decreases |steps|
  {
    hide Sound, Next;
    if steps != [] {
      SoundNext(s, steps[0], lifetime);
      RunSound(Next(s, steps[0], lifetime), steps[1..], lifetime);
    }
  }

  lemma {:induction false} AcknowledgedRunsKeep(s: State, steps: seq<Step>, a: AccountId, lifetime: nat)
    requires Sound(s, lifetime) && Chained(s, a) && Located(s, a) && ReadIsWritten(s, a)
    requires Possible(s, steps, lifetime) && AcknowledgedSignIn(s, steps, a, lifetime)
    ensures var end := Run(s, steps, lifetime); Sound(end, lifetime) && Chained(end, a) && Located(end, a) && ReadIsWritten(end, a)
    decreases |steps|
  {
    hide Sound, Chained, Located, ReadIsWritten, Next;
    if steps != [] {
      AcknowledgedStepKeeps(s, steps[0], a, lifetime);
      AcknowledgedRunsKeep(Next(s, steps[0], lifetime), steps[1..], a, lifetime);
    }
  }

  lemma AcknowledgedStepKeeps(s: State, step: Step, a: AccountId, lifetime: nat)
    requires Sound(s, lifetime) && Chained(s, a) && Located(s, a) && ReadIsWritten(s, a)
    requires Enabled(s, step, lifetime) && OneSignIn(step, a) && Acknowledged(s, step, a)
    ensures var s' := Next(s, step, lifetime); Sound(s', lifetime) && Chained(s', a) && Located(s', a) && ReadIsWritten(s', a)
  {
    hide *;
    AcknowledgedClears(s, step, a, lifetime);
    SoundNext(s, step, lifetime);
    ChainedNext(s, step, a, lifetime);
    LocatedNext(s, step, a, lifetime);
    ReadIsWrittenNext(s, step, a, lifetime);
  }

  /** A rotation obtained, by a manager or by `diagnose`, is known and works. */
  lemma ARotationIsKnown(s: State, step: Step, a: AccountId, lifetime: nat)
    requires Enabled(s, step, lifetime) && RotatesAccount(s, step, a)
    ensures var s' := Next(s, step, lifetime); Known(s', a, step.got.refresh) && step.got.refresh in s'.live && s'.row == s.row
  {
    var s' := Next(s, step, lifetime);
    if step.Refresh? {
      assert ManagerKnows(s', a, step.m, step.got.refresh);
    } else {
      assert ProbeKnows(s', a, step.p, step.got.refresh);
    }
  }

  /**
    Whatever a manager or `diagnose` obtained in a run from the empty start, within one
    sign-in, is the stored login once the queue has drained, if it still works then, the
    account is still on the panel and `diagnose` did not give up on it.
   */
  lemma WhatWasObtainedIsStored(s: State, before: seq<Step>, step: Step, after: seq<Step>, a: AccountId, lifetime: nat)
    requires Init(s) && Possible(s, before, lifetime) && AcknowledgedSignIn(s, before, a, lifetime)
    requires var s1 := Run(s, before, lifetime);
             && Enabled(s1, step, lifetime) && RotatesAccount(s1, step, a)
             && Possible(Next(s1, step, lifetime), after, lifetime)
             && AcknowledgedSignIn(Next(s1, step, lifetime), after, a, lifetime)
             && TokenKept(Next(s1, step, lifetime), after, a, step.got.refresh, lifetime)
    requires var end := Run(Next(Run(s, before, lifetime), step, lifetime), after, lifetime);
             step.got.refresh in end.live && a in end.row && Drained(end, a)
    ensures var end := Run(Next(Run(s, before, lifetime), step, lifetime), after, lifetime);
            StoredToken(end, a).refresh == step.got.refresh
  {
    hide Init, Sound, Chained, Located, ReadIsWritten, Next, Run, Known, Enabled, RotatesAccount, Drained, TheLiveOneIsStored, AcknowledgedSignIn, TokenKept, ClearSignIn;
    StartsWell(s, a, lifetime);
    AcknowledgedRunsKeep(s, before, a, lifetime);
    var s1 := Run(s, before, lifetime);
    NoFlushEnds(s1, step, a);
    WasOnThePanel(s1, step, after, a, lifetime);
    ARotationIsKnown(s1, step, a, lifetime);
    AcknowledgedStepKeeps(s1, step, a, lifetime);
    var s2 := Next(s1, step, lifetime);
    AcknowledgedIsClear(s2, after, a, lifetime);
    TheWorkingTokenIsNeverLost(s2, after, a, step.got.refresh, lifetime);
    TheStoredLoginIsTheLiveOne(s2, after, a, lifetime);
    TheOneStored(Run(s2, after, lifetime), a, step.got.refresh);
  }

  lemma StartsWell(s: State, a: AccountId, lifetime: nat)
    requires Init(s)
    ensures Sound(s, lifetime) && Chained(s, a) && Located(s, a) && ReadIsWritten(s, a)
  {
    hide Sound, Chained, Located, ReadIsWritten;
    InitIsSafe(s, a, lifetime);
    SafeIsSound(s, a, lifetime);
    InitIsChained(s, a);
    InitIsLocated(s, a);
  }

  lemma NoFlushEnds(s: State, step: Step, a: AccountId)
    requires RotatesAccount(s, step, a)
    ensures OneSignIn(step, a) && Acknowledged(s, step, a) && (step.Refresh? || step.ProbeRefresh?)
  {
  }

  lemma WasOnThePanel(s: State, step: Step, after: seq<Step>, a: AccountId, lifetime: nat)
    requires Sound(s, lifetime) && Enabled(s, step, lifetime) && RotatesAccount(s, step, a)
    requires Possible(Next(s, step, lifetime), after, lifetime) && a in Run(Next(s, step, lifetime), after, lifetime).row
    ensures a in s.row
  {
    hide Run;
    if step.Refresh? {
      assert ManagerSound(s, s.managers[step.m], lifetime);
    }
    if a !in s.row {
      GoneNext(s, step, a, lifetime);
      GoneStaysGone(Next(s, step, lifetime), after, a, lifetime);
    }
  }

  lemma TheOneStored(s: State, a: AccountId, t: string)
    requires TheLiveOneIsStored(s, a) && a in s.row && Known(s, a, t) && t in s.live
    ensures StoredToken(s, a).refresh == t
  {
    hide Known;
  }
}
