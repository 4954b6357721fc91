/**
  Where the working token is: within one sign-in, once the writer's queue has drained, the
  token that still works, if anybody on this side knows it, is the one in the panel row, so
  a restart loses nothing. All that is asked of a run besides is that a flush which has
  committed a write is told so.
 */
module LiveLogin {
  import opened Wrappers
  import opened Times
  import opened Credentials
  import opened Rotation
  import opened KeptRotations
  import opened SingleSignIn

  function StoredToken(s: State, a: AccountId): Credential
    requires a in s.row
  {
    ParseCredential(s.row[a])
  }

  ghost predicate Placed(s: State, a: AccountId, t: string) {
    || (exists m :: MidRotation(s, a, m) && s.managers[m].unqueued.value.refresh == t)
    || (a in s.queue && s.queue[a].refresh == t)
    || (exists p :: ProbeKnows(s, a, p, t))
    || (a in s.row && StoredToken(s, a).refresh == t)
  }

  /** A working token that anyone knows is in hand, queued or stored. */
  ghost predicate LiveIsPlaced(s: State, a: AccountId) {
    a in s.row ==> forall t :: t in s.live && Known(s, a, t) ==> Placed(s, a, t)
  }

  predicate RotatesAccount(s: State, step: Step, a: AccountId) {
    (step.Refresh? && step.m in s.managers && s.managers[step.m].account == a) || (step.ProbeRefresh? && step.a == a)
  }

  // ------------------------------------------------------------ what is still to be written

  /** The flush has just committed its write for the account. */
  predicate Settling(s: State, a: AccountId) {
    s.flush.Writing? && s.flush.committed == Some(a) && a in s.flush.todo
  }

  /** A credential the writer has still to write. */
  predicate Waiting(s: State, a: AccountId, c: Credential) {
    || (a in s.queue && s.queue[a] == c && !(Settling(s, a) && s.flush.todo[a] == c))
    || (s.flush.Writing? && a in s.flush.todo && s.flush.todo[a] == c && !Settling(s, a))
  }

  /** A credential the writer has, written or not. */
  predicate Queued(s: State, a: AccountId, c: Credential) {
    (a in s.queue && s.queue[a] == c) || (s.flush.Writing? && a in s.flush.todo && s.flush.todo[a] == c)
  }

  /** A rotation obtained for the account that somebody has in hand. */
  ghost predicate Pending(s: State, a: AccountId, c: Credential) {
    || Queued(s, a, c)
    || (exists m :: MidRotation(s, a, m) && s.managers[m].unqueued.value == c)
    || (exists p :: p in s.probes && s.probes[p] == Probe(a, c))
  }

  /** The state as `diagnose` has no part in it. */
  function Gateway(s: State): State {
    s.(probes := map[])
  }

  ghost predicate ProbeHolds(s: State, a: AccountId, t: string) {
    exists p :: ProbeKnows(s, a, p, t)
  }

  /** While `diagnose` is between obtaining a rotation and storing it nobody else knows a token that works. */
  ghost predicate ProbesAlone(s: State, a: AccountId) {
    && (forall p, q :: p in s.probes && q in s.probes && s.probes[p].account == a && s.probes[q].account == a ==> p == q)
    && (forall p, t :: p in s.probes && s.probes[p].account == a && t in s.live ==> !Known(Gateway(s), a, t))
  }

  /** Of what is in hand, what works was issued last. */
  ghost predicate LiveIsNewest(s: State, a: AccountId) {
    forall c, d :: Pending(s, a, c) && Pending(s, a, d) && c.refresh in s.live ==> d.expires <= c.expires
  }

  /** The row is no newer than what works and is in hand. */
  ghost predicate RowIsBehind(s: State, a: AccountId)
    requires a in s.row
  {
    forall c :: Pending(s, a, c) && c.refresh in s.live ==> StoredToken(s, a).expires <= c.expires
  }

  /** What a flush is writing, if it still works, is what is queued; and what it has written is stored. */
  predicate FlushAgrees(s: State, a: AccountId)
    requires a in s.row
  {
    s.flush.Writing? && a in s.flush.todo && s.flush.todo[a].refresh in s.live ==>
      && (a in s.queue && s.queue[a] == s.flush.todo[a])
      && (Settling(s, a) ==> StoredToken(s, a).refresh == s.flush.todo[a].refresh)
  }

  /** Writing c, at the grain of the store, would not displace what works from the row, nor keep it out. */
  ghost predicate Cleared(s: State, a: AccountId, c: Credential)
    requires a in s.row
  {
    && (forall p :: p in s.probes && s.probes[p].account == a && s.probes[p].cred.refresh in s.live ==>
          c.expires + MILLISECOND <= s.probes[p].cred.expires)
    && (StoredToken(s, a).refresh in s.live ==> c.refresh == StoredToken(s, a).refresh || c.expires < StoredToken(s, a).expires)
  }

  ghost predicate WaitingIsCleared(s: State, a: AccountId)
    requires a in s.row
  {
    forall c :: Waiting(s, a, c) ==> Cleared(s, a, c)
  }

  /** What the flush has just written is still what is queued, and is written again if the flush ends here. */
  predicate WrittenTwice(s: State, a: AccountId) {
    Settling(s, a) && a in s.queue && s.queue[a] == s.flush.todo[a]
  }

  /**
    What is asked of a run: `diagnose` does not rotate within a millisecond of something
    still to be written; and a flush that ends without being told of its write would not,
    writing it again, displace what works.
   */
  ghost predicate Clears(s: State, step: Step, a: AccountId) {
    && (step.ProbeRefresh? && step.a == a && a in s.row ==> forall c :: Waiting(s, a, c) ==> c.expires + MILLISECOND <= step.got.expires)
    && (step.FlushEnd? && WrittenTwice(s, a) && a in s.row ==> Cleared(s, a, s.flush.todo[a]))
  }

  ghost predicate Located(s: State, a: AccountId) {
    a in s.row ==>
      ProbesAlone(s, a) && LiveIsNewest(s, a) && RowIsBehind(s, a) && FlushAgrees(s, a) && WaitingIsCleared(s, a) && LiveIsPlaced(s, a)
  }

  lemma StoredIsKnown(s: State, a: AccountId, lifetime: nat)
    requires Sound(s, lifetime) && a in s.row
    ensures Known(s, a, StoredToken(s, a).refresh)
    ensures StoredToken(s, a).expires <= s.now + lifetime
  {
    assert s.row[a] in s.past[a] && Plausible(s, s.row[a], lifetime);
    assert Reads(s, a, StoredToken(s, a).refresh);
  }

  lemma StillLive(s: State, s': State, a: AccountId, t: string, lifetime: nat)
    requires Sound(s, lifetime) && Sound(s', lifetime) && LearnsNothing(s, s', a)
    requires t in s'.live && Known(s', a, t)
    ensures t in s.live && Known(s, a, t)
  {
    KnownIsMinted(s, a, t, lifetime);
  }

  lemma SameLive(s: State, a: AccountId, t: string, u: string)
    requires OneLive(s, a) && Known(s, a, t) && Known(s, a, u) && t in s.live && u in s.live
    ensures t == u
  {
  }

  lemma LearnsOnlyOld(s: State, s': State, a: AccountId, t: string)
    requires LearnsNothing(s, s', a) && Known(s', a, t)
    ensures Known(s, a, t)
  {
  }

  lemma PendingIsGenuine(s: State, a: AccountId, c: Credential, lifetime: nat)
    requires Sound(s, lifetime) && Pending(s, a, c)
    ensures Genuine(s, c, lifetime) && a in s.past && Known(s, a, c.refresh)
  {
    if m :| MidRotation(s, a, m) && s.managers[m].unqueued.value == c {
      assert ManagerSound(s, s.managers[m], lifetime);
      assert ManagerKnows(s, a, m, c.refresh);
    } else if Queued(s, a, c) {
    } else {
      var p :| p in s.probes && s.probes[p] == Probe(a, c);
      assert ProbeKnows(s, a, p, c.refresh);
    }
  }

  lemma GatewayKnowledge(s: State, a: AccountId, t: string)
    requires Known(Gateway(s), a, t)
    ensures Known(s, a, t)
  {
    var g := Gateway(s);
    if n :| ManagerKnows(g, a, n, t) {
      assert ManagerKnows(s, a, n, t);
    }
  }

  lemma KnownToWhom(s: State, a: AccountId, t: string)
    requires Known(s, a, t)
    ensures Known(Gateway(s), a, t) || ProbeHolds(s, a, t)
  {
    var g := Gateway(s);
    if n :| ManagerKnows(s, a, n, t) {
      assert ManagerKnows(g, a, n, t);
    }
  }

  predicate OfProbes(step: Step) {
    step.ProbeRefresh? || step.ProbeCommit? || step.ProbeFails?
  }

  lemma GatewayCommutes(s: State, step: Step, lifetime: nat)
    requires Enabled(s, step, lifetime) && !OfProbes(step)
    ensures Enabled(Gateway(s), step, lifetime) && Next(Gateway(s), step, lifetime) == Gateway(Next(s, step, lifetime))
  {
  }

  lemma GatewayIsSound(s: State, lifetime: nat)
    requires Sound(s, lifetime)
    ensures Sound(Gateway(s), lifetime)
  {
    RowSoundLater(s, Gateway(s), lifetime);
  }

  lemma ProbesTeachTheGatewayNothing(s: State, step: Step, a: AccountId, t: string, lifetime: nat)
    requires Sound(s, lifetime) && Enabled(s, step, lifetime) && OfProbes(step)
    requires !(step.ProbeCommit? && s.probes[step.p].account == a)
    requires Known(Gateway(Next(s, step, lifetime)), a, t)
    ensures Known(Gateway(s), a, t)
  {
    var g, s' := Gateway(s), Next(s, step, lifetime);
    if step.ProbeCommit? {
      StoredTeaches(s, s.probes[step.p].account, s.probes[step.p].cred, a, t, lifetime);
      assert Reads(Gateway(s'), a, t) ==> Reads(Stored(s, s.probes[step.p].account, s.probes[step.p].cred), a, t);
    }
    assert Reads(s, a, t) ==> Reads(g, a, t);
    KnownFrom(g, Gateway(s'), a, t);
  }

  /** A step that neither rotates the account nor stores something new for it teaches the gateway nothing. */
  lemma GatewayLearnsNothing(s: State, step: Step, a: AccountId, t: string, lifetime: nat)
    requires Sound(s, lifetime) && Enabled(s, step, lifetime) && !RotatesAccount(s, step, a)
    requires !((step.HandUp? || step.AddAccount?) && step.a == a)
    requires !(step.ProbeCommit? && s.probes[step.p].account == a)
    requires Known(Gateway(Next(s, step, lifetime)), a, t)
    ensures Known(Gateway(s), a, t)
  {
    hide LearnsNothing, Sound, Next, Enabled;
    if OfProbes(step) {
      ProbesTeachTheGatewayNothing(s, step, a, t, lifetime);
    } else {
      GatewayCommutes(s, step, lifetime);
      GatewayIsSound(s, lifetime);
      assert step.Refresh? ==> Gateway(s).managers == s.managers;
      QuietStepTeachesNothing(Gateway(s), step, a, lifetime);
      LearnsOnlyOld(Gateway(s), Gateway(Next(s, step, lifetime)), a, t);
    }
  }

  // ------------------------------------------------------------ a step that changes little

  /** What the flush and the queue have of the account stays, but for what the flush is done with. */
  predicate SameFlush(s: State, s': State, a: AccountId) {
    s'.flush.Writing? && a in s'.flush.todo ==>
      && s.flush.Writing? && a in s.flush.todo && s'.flush.todo[a] == s.flush.todo[a]
      && (Settling(s', a) ==> Settling(s, a))
      && (a in s.queue && s.queue[a] == s.flush.todo[a] && s.queue[a].refresh in s'.live ==> a in s'.queue && s'.queue[a] == s.queue[a])
  }

  lemma FlushAgreesStays(s: State, s': State, a: AccountId, lifetime: nat)
    requires Sound(s, lifetime) && Sound(s', lifetime) && LearnsNothing(s, s', a) && SameFlush(s, s', a)
    requires a in s.row && a in s'.row && s'.row[a] == s.row[a] && FlushAgrees(s, a)
    ensures FlushAgrees(s', a)
  {
    if s'.flush.Writing? && a in s'.flush.todo && s'.flush.todo[a].refresh in s'.live {
      assert WriterKnows(s', a, s'.flush.todo[a].refresh);
      StillLive(s, s', a, s'.flush.todo[a].refresh, lifetime);
    }
  }

  lemma ClearedStays(s: State, s': State, a: AccountId, lifetime: nat)
    requires Sound(s, lifetime) && Sound(s', lifetime) && LearnsNothing(s, s', a)
    requires a in s.row && a in s'.row && s'.row[a] == s.row[a] && WaitingIsCleared(s, a)
    requires forall c :: Waiting(s', a, c) ==> Waiting(s, a, c)
    requires forall p :: p in s'.probes && s'.probes[p].account == a ==> p in s.probes && s'.probes[p] == s.probes[p]
    ensures WaitingIsCleared(s', a)
  {
    hide Sound, Waiting, LearnsNothing;
    StoredIsKnown(s', a, lifetime);
    forall p | p in s'.probes && s'.probes[p].account == a && s'.probes[p].cred.refresh in s'.live
      ensures s.probes[p].cred.refresh in s.live
    {
      assert ProbeKnows(s', a, p, s'.probes[p].cred.refresh);
      KnownByAny(s', a, s'.probes[p].cred.refresh);
      StillLive(s, s', a, s'.probes[p].cred.refresh, lifetime);
    }
    if StoredToken(s', a).refresh in s'.live {
      StillLive(s, s', a, StoredToken(s', a).refresh, lifetime);
    }
  }

  lemma LiveIsPlacedStays(s: State, s': State, a: AccountId, lifetime: nat)
    requires Sound(s, lifetime) && Sound(s', lifetime) && LearnsNothing(s, s', a) && LiveIsPlaced(s, a) && (a in s'.row ==> a in s.row)
    requires forall t :: t in s.live && Known(s, a, t) && Placed(s, a, t) ==> Placed(s', a, t)
    ensures LiveIsPlaced(s', a)
  {
    if a in s'.row {
      forall t | t in s'.live && Known(s', a, t) ensures Placed(s', a, t) {
        StillLive(s, s', a, t, lifetime);
      }
    }
  }

  lemma LocatedStays(s: State, s': State, a: AccountId, lifetime: nat)
    requires Sound(s, lifetime) && Sound(s', lifetime) && LearnsNothing(s, s', a) && Located(s, a)
    requires a in s.row && a in s'.row && s'.row[a] == s.row[a]
    requires forall t :: Known(Gateway(s'), a, t) ==> Known(Gateway(s), a, t)
    requires forall p :: p in s'.probes && s'.probes[p].account == a ==> p in s.probes && s'.probes[p] == s.probes[p]
    requires forall c :: Pending(s', a, c) ==> Pending(s, a, c)
    requires FlushAgrees(s', a) && WaitingIsCleared(s', a) && LiveIsPlaced(s', a)
    ensures Located(s', a)
  {
    hide Sound, Pending, LearnsNothing;
    forall p, t | p in s'.probes && s'.probes[p].account == a && t in s'.live
      ensures !Known(Gateway(s'), a, t)
    {
      if Known(Gateway(s'), a, t) {
        GatewayKnowledge(s', a, t);
        StillLive(s, s', a, t, lifetime);
      }
    }
    forall c | Pending(s', a, c) && c.refresh in s'.live
      ensures Pending(s, a, c) && c.refresh in s.live
    {
      PendingIsGenuine(s', a, c, lifetime);
      StillLive(s, s', a, c.refresh, lifetime);
    }
  }

  // ------------------------------------------------------------ the steps

  /** Steps that leave what is still to be written, the row and what the flush is writing alone. */
  predicate LeavesAlone(s: State, step: Step, a: AccountId) {
    && !RotatesAccount(s, step, a)
    && !(step.Enqueue? && step.m in s.managers && s.managers[step.m].account == a)
    && !step.FlushBegin? && !step.FlushSettle? && !step.FlushEnd?
    && !((step.FlushCommit? || step.AddAccount? || step.HandUp?) && step.a == a)
    && !((step.ProbeCommit? || step.ProbeFails?) && step.p in s.probes && s.probes[step.p].account == a)
  }

  /** What such a step leaves. */
  ghost predicate SameAccount(s: State, s': State, a: AccountId) {
    SameManagers(s, s', a) && SameWriter(s, s', a) && SameProbes(s, s', a)
  }

  ghost predicate SameManagers(s: State, s': State, a: AccountId) {
    && (forall m :: MidRotation(s', a, m) <==> MidRotation(s, a, m))
    && (forall m :: MidRotation(s, a, m) ==> s'.managers[m].unqueued == s.managers[m].unqueued)
  }

  predicate SameWriter(s: State, s': State, a: AccountId) {
    && (a in s'.queue <==> a in s.queue) && (a in s.queue ==> s'.queue[a] == s.queue[a])
    && (s'.flush.Writing? && a in s'.flush.todo <==> s.flush.Writing? && a in s.flush.todo)
    && (s.flush.Writing? && a in s.flush.todo ==> s'.flush.todo[a] == s.flush.todo[a])
    && (Settling(s', a) <==> Settling(s, a))
  }

  ghost predicate SameProbes(s: State, s': State, a: AccountId) {
    && (forall p :: p in s'.probes && s'.probes[p].account == a ==> p in s.probes && s'.probes[p] == s.probes[p])
    && (forall p :: p in s.probes && s.probes[p].account == a ==> p in s'.probes && s'.probes[p] == s.probes[p])
  }

  lemma AloneLeaves(s: State, step: Step, a: AccountId, lifetime: nat)
    requires Sound(s, lifetime) && Enabled(s, step, lifetime) && LeavesAlone(s, step, a)
    ensures var s' := Next(s, step, lifetime); SameAccount(s, s', a) && (a in s'.row ==> a in s.row && s'.row[a] == s.row[a])
  {
    hide Sound, SameManagers, SameWriter, SameProbes, Next, Enabled, LeavesAlone;
    AloneLeavesManagers(s, step, a, lifetime);
    AloneLeavesWriter(s, step, a, lifetime);
    AloneLeavesProbes(s, step, a, lifetime);
    AloneLeavesRow(s, step, a, lifetime);
  }

  lemma AloneLeavesManagers(s: State, step: Step, a: AccountId, lifetime: nat)
    requires Enabled(s, step, lifetime) && LeavesAlone(s, step, a)
    ensures SameManagers(s, Next(s, step, lifetime), a)
  {
  }

  lemma AloneLeavesWriter(s: State, step: Step, a: AccountId, lifetime: nat)
    requires Enabled(s, step, lifetime) && LeavesAlone(s, step, a)
    ensures SameWriter(s, Next(s, step, lifetime), a)
  {
  }

  lemma AloneLeavesProbes(s: State, step: Step, a: AccountId, lifetime: nat)
    requires Enabled(s, step, lifetime) && LeavesAlone(s, step, a)
    ensures SameProbes(s, Next(s, step, lifetime), a)
  {
  }

  lemma AloneLeavesRow(s: State, step: Step, a: AccountId, lifetime: nat)
    requires Enabled(s, step, lifetime) && LeavesAlone(s, step, a)
    ensures var s' := Next(s, step, lifetime); a in s'.row ==> a in s.row && s'.row[a] == s.row[a]
  {
  }

  /** Nothing new can be read of the account. */
  lemma NothingNewToRead(s: State, step: Step, a: AccountId, t: string, lifetime: nat)
    requires Sound(s, lifetime) && Enabled(s, step, lifetime) && Reads(Next(s, step, lifetime), a, t)
    requires !((step.FlushCommit? || step.AddAccount? || step.HandUp?) && step.a == a)
    requires !(step.ProbeCommit? && s.probes[step.p].account == a)
    ensures Reads(s, a, t)
  {
    var s' := Next(s, step, lifetime);
    if step.HandUp? || step.AddAccount? {
      PutTeaches(s, step.a, step.blob, a, t);
    } else if step.FlushCommit? {
      StoredTeaches(s, step.a, s.flush.todo[step.a], a, t, lifetime);
      assert Reads(Stored(s, step.a, s.flush.todo[step.a]), a, t);
    } else if step.ProbeCommit? {
      StoredTeaches(s, s.probes[step.p].account, s.probes[step.p].cred, a, t, lifetime);
      assert Reads(Stored(s, s.probes[step.p].account, s.probes[step.p].cred), a, t);
    }
  }

  lemma SamePlaces(s: State, s': State, a: AccountId, t: string)
    requires SameAccount(s, s', a) && (a in s.row ==> a in s'.row && s'.row[a] == s.row[a]) && Placed(s, a, t)
    ensures Placed(s', a, t)
  {
    if n :| MidRotation(s, a, n) && s.managers[n].unqueued.value.refresh == t {
      assert MidRotation(s', a, n) && s'.managers[n].unqueued.value.refresh == t;
    } else if p :| ProbeKnows(s, a, p, t) {
      assert ProbeKnows(s', a, p, t);
    }
  }

  lemma SameToWrite(s: State, s': State, a: AccountId)
    requires SameAccount(s, s', a)
    ensures forall c :: Waiting(s', a, c) ==> Waiting(s, a, c)
    ensures forall c :: Pending(s', a, c) ==> Pending(s, a, c)
    ensures forall t :: ProbeHolds(s', a, t) ==> ProbeHolds(s, a, t)
  {
    forall c | Pending(s', a, c) ensures Pending(s, a, c) {
      if n :| MidRotation(s', a, n) && s'.managers[n].unqueued.value == c {
        assert MidRotation(s, a, n) && s.managers[n].unqueued.value == c;
      } else if Queued(s', a, c) {
        assert Queued(s, a, c);
      }
    }
    forall t | ProbeHolds(s', a, t) ensures ProbeHolds(s, a, t) {
      var p :| ProbeKnows(s', a, p, t);
      assert ProbeKnows(s, a, p, t);
    }
  }

  lemma LocatedElsewhere(s: State, step: Step, a: AccountId, lifetime: nat)
    requires Sound(s, lifetime) && Located(s, a) && Enabled(s, step, lifetime) && LeavesAlone(s, step, a)
    ensures Located(Next(s, step, lifetime), a)
  {
    hide Sound, LearnsNothing, Next, Pending, Waiting, SameAccount, Placed, ProbesAlone, LiveIsNewest, WaitingIsCleared, FlushAgrees, Known;
    var s' := Next(s, step, lifetime);
    AloneLeaves(s, step, a, lifetime);
    if a in s'.row {
      SoundNext(s, step, lifetime);
      QuietStepTeachesNothing(s, step, a, lifetime);
      SameToWrite(s, s', a);
      SameParts(s, s', a);
      FlushAgreesStays(s, s', a, lifetime);
      ClearedStays(s, s', a, lifetime);
      forall t | Placed(s, a, t) ensures Placed(s', a, t) { SamePlaces(s, s', a, t); }
      LiveIsPlacedStays(s, s', a, lifetime);
      forall t | Known(Gateway(s'), a, t) ensures Known(Gateway(s), a, t) { GatewayLearnsNothing(s, step, a, t, lifetime); }
      LocatedStays(s, s', a, lifetime);
    }
  }

  lemma SameParts(s: State, s': State, a: AccountId)
    requires SameAccount(s, s', a)
    ensures SameFlush(s, s', a)
    ensures forall p :: p in s'.probes && s'.probes[p].account == a ==> p in s.probes && s'.probes[p] == s.probes[p]
  {
  }

  lemma SameProbesHold(s: State, s': State, a: AccountId)
    requires s'.probes == s.probes
    ensures forall t :: ProbeHolds(s', a, t) ==> ProbeHolds(s, a, t)
  {
    forall t | ProbeHolds(s', a, t) ensures ProbeHolds(s, a, t) {
      var p :| ProbeKnows(s', a, p, t);
      assert ProbeKnows(s, a, p, t);
    }
  }

  /** While nothing that works can be read or is held by `diagnose`, nothing can be displaced. */
  lemma NothingElseWorks(s: State, s': State, a: AccountId, lifetime: nat)
    requires Sound(s, lifetime) && a in s.row && a in s'.row && s'.row[a] == s.row[a] && s'.probes == s.probes && s'.live == s.live
    requires forall t | t in s.live :: !Reads(s, a, t) && !ProbeHolds(s, a, t)
    ensures WaitingIsCleared(s', a)
  {
    TheRowCanBeRead(s, a, lifetime);
    forall p | p in s.probes && s.probes[p].account == a ensures s.probes[p].cred.refresh !in s.live {
      assert ProbeKnows(s, a, p, s.probes[p].cred.refresh);
    }
  }

  /** Queueing a rotation: what was queued before it no longer works. */
  lemma LocatedEnqueue(s: State, m: ActorId, a: AccountId, lifetime: nat)
    requires Sound(s, lifetime) && Chained(s, a) && Located(s, a) && Enabled(s, Enqueue(m), lifetime)
    requires s.managers[m].account == a && a in s.row
    ensures Located(Next(s, Enqueue(m), lifetime), a)
  {
    hide Sound, LearnsNothing, Known;
    var s' := Next(s, Enqueue(m), lifetime);
    var c := s.managers[m].unqueued.value;
    SoundNext(s, Enqueue(m), lifetime);
    EnqueueTeachesNothing(s, m, a, lifetime);
    assert MidRotation(s, a, m);
    forall t | t in s.live ensures !Reads(s, a, t) && !WriterKnows(s, a, t) && !ProbeHolds(s, a, t) {
      assert !KnownBeside(s, a, m, t);
    }
    forall d | Pending(s', a, d) ensures Pending(s, a, d) {
      if n :| MidRotation(s', a, n) && s'.managers[n].unqueued.value == d {
        assert MidRotation(s, a, n) && s.managers[n].unqueued.value == d;
      } else if Queued(s', a, d) {
        assert Queued(s, a, d) || (d == c && MidRotation(s, a, m) && s.managers[m].unqueued.value == d);
      }
    }
    NothingElseWorks(s, s', a, lifetime);
    forall t | t in s.live && Placed(s, a, t) ensures Placed(s', a, t) {
      assert a in s.queue ==> WriterKnows(s, a, s.queue[a].refresh);
      if n :| MidRotation(s, a, n) && s.managers[n].unqueued.value.refresh == t {
        if n != m {
          assert MidRotation(s', a, n) && s'.managers[n].unqueued.value.refresh == t;
        }
      }
    }
    LiveIsPlacedStays(s, s', a, lifetime);
    forall t | Known(Gateway(s'), a, t) ensures Known(Gateway(s), a, t) { GatewayLearnsNothing(s, Enqueue(m), a, t, lifetime); }
    if s.flush.Writing? && a in s.flush.todo {
      assert WriterKnows(s, a, s.flush.todo[a].refresh);
    }
    LocatedStays(s, s', a, lifetime);
  }

  /** A flush that begins, ends, or takes off the queue what it has written. */
  lemma LocatedFlush(s: State, step: Step, a: AccountId, lifetime: nat)
    requires Sound(s, lifetime) && Located(s, a) && Enabled(s, step, lifetime) && a in s.row
    requires (step.FlushBegin? || step.FlushSettle? || step.FlushEnd?) && Clears(s, step, a)
    ensures Located(Next(s, step, lifetime), a)
  {
    hide Sound, LearnsNothing, Known;
    var s' := Next(s, step, lifetime);
    SoundNext(s, step, lifetime);
    FlushTeachesNothing(s, step, a, lifetime);
    FlushLeaves(s, step, a, lifetime);
    if step.FlushBegin? {
    } else {
      assert SameFlush(s, s', a);
      FlushAgreesStays(s, s', a, lifetime);
    }
    LiveIsPlacedStays(s, s', a, lifetime);
    forall t | Known(Gateway(s'), a, t) ensures Known(Gateway(s), a, t) { GatewayLearnsNothing(s, step, a, t, lifetime); }
    LocatedStays(s, s', a, lifetime);
  }

  lemma FlushLeaves(s: State, step: Step, a: AccountId, lifetime: nat)
    requires Sound(s, lifetime) && Located(s, a) && Enabled(s, step, lifetime) && a in s.row
    requires (step.FlushBegin? || step.FlushSettle? || step.FlushEnd?) && Clears(s, step, a)
    ensures var s' := Next(s, step, lifetime);
            && WaitingIsCleared(s', a)
            && (forall c :: Pending(s', a, c) ==> Pending(s, a, c))
            && (forall t :: t in s.live && Placed(s, a, t) ==> Placed(s', a, t))
  {
    hide Sound, LearnsNothing, Known;
    var s' := Next(s, step, lifetime);
    FlushClears(s, step, a, lifetime);
    forall d | Pending(s', a, d) ensures Pending(s, a, d) {
      if n :| MidRotation(s', a, n) && s'.managers[n].unqueued.value == d {
        assert MidRotation(s, a, n) && s.managers[n].unqueued.value == d;
      } else if Queued(s', a, d) {
        assert Queued(s, a, d);
      }
    }
    forall t | t in s.live && Placed(s, a, t) ensures Placed(s', a, t) {
      if n :| MidRotation(s, a, n) && s.managers[n].unqueued.value.refresh == t {
        assert MidRotation(s', a, n) && s'.managers[n].unqueued.value.refresh == t;
      } else if p :| ProbeKnows(s, a, p, t) {
        assert ProbeKnows(s', a, p, t);
      }
    }
  }

  /** Only a flush that is not told of its write leaves something to be written again. */
  lemma FlushWaits(s: State, step: Step, a: AccountId, c: Credential, lifetime: nat)
    requires Enabled(s, step, lifetime) && (step.FlushBegin? || step.FlushSettle? || step.FlushEnd?)
    requires Waiting(Next(s, step, lifetime), a, c)
    ensures Waiting(s, a, c) || (step.FlushEnd? && WrittenTwice(s, a) && c == s.flush.todo[a])
  {
  }

  lemma FlushClears(s: State, step: Step, a: AccountId, lifetime: nat)
    requires Enabled(s, step, lifetime) && (step.FlushBegin? || step.FlushSettle? || step.FlushEnd?)
    requires a in s.row && WaitingIsCleared(s, a) && Clears(s, step, a)
    ensures WaitingIsCleared(Next(s, step, lifetime), a)
  {
    hide Waiting;
    var s' := Next(s, step, lifetime);
    forall c | Waiting(s', a, c) ensures Cleared(s', a, c) {
      FlushWaits(s, step, a, c, lifetime);
      assert Cleared(s, a, c);
    }
  }

  /** `diagnose` giving up: what it held is then nobody's. */
  lemma LocatedProbeFails(s: State, p: ActorId, a: AccountId, lifetime: nat)
    requires Sound(s, lifetime) && Located(s, a) && Enabled(s, ProbeFails(p), lifetime) && s.probes[p].account == a && a in s.row
    ensures Located(Next(s, ProbeFails(p), lifetime), a)
  {
    hide Sound, LearnsNothing, Known;
    var step := ProbeFails(p);
    var s' := Next(s, step, lifetime);
    SoundNext(s, step, lifetime);
    ProbeEndTeachesNothing(s, step, a, lifetime);
    forall d | Pending(s', a, d) ensures Pending(s, a, d) {
      if n :| MidRotation(s', a, n) && s'.managers[n].unqueued.value == d {
        assert MidRotation(s, a, n) && s.managers[n].unqueued.value == d;
      } else if Queued(s', a, d) {
        assert Queued(s, a, d);
      }
    }
    assert forall q :: q in s'.probes ==> s'.probes[q].account != a;
    assert SameFlush(s, s', a);
    FlushAgreesStays(s, s', a, lifetime);
    ClearedStays(s, s', a, lifetime);
    forall t | Known(Gateway(s'), a, t) ensures Known(Gateway(s), a, t) { GatewayLearnsNothing(s, step, a, t, lifetime); }
    forall t | t in s'.live ensures !Known(s', a, t) {
      if Known(s', a, t) {
        KnownToWhom(s', a, t);
      }
    }
    LocatedStays(s, s', a, lifetime);
  }

  /** What is in hand after a commit was so before. */
  lemma PendingAfterCommit(s: State, s': State, a: AccountId)
    requires s'.managers == s.managers && (forall d :: Queued(s', a, d) ==> Queued(s, a, d))
    requires forall p :: p in s'.probes ==> p in s.probes && s'.probes[p] == s.probes[p]
    ensures forall d :: Pending(s', a, d) ==> Pending(s, a, d)
  {
    hide Queued;
    forall d | Pending(s', a, d) ensures Pending(s, a, d) {
      if n :| MidRotation(s', a, n) && s'.managers[n].unqueued.value == d {
        assert MidRotation(s, a, n) && s.managers[n].unqueued.value == d;
      }
    }
  }

  lemma OlderStaysOlder(s: State, s': State, a: AccountId)
    requires LiveIsNewest(s, a) && s'.live == s.live && forall d :: Pending(s', a, d) ==> Pending(s, a, d)
    ensures LiveIsNewest(s', a)
  {
    hide Pending;
  }

  lemma ProbesStayAlone(s: State, s': State, a: AccountId)
    requires ProbesAlone(s, a) && s'.live == s.live
    requires forall p :: p in s'.probes ==> p in s.probes && s'.probes[p] == s.probes[p]
    requires forall t :: Known(Gateway(s'), a, t) ==> Known(Gateway(s), a, t)
    ensures ProbesAlone(s', a)
  {
    hide Known;
  }

  /** The flush's write: what works is in the row afterwards, or stays where it was. */
  lemma LocatedCommit(s: State, a: AccountId, lifetime: nat)
    requires Sound(s, lifetime) && OneLive(s, a) && Located(s, a) && Enabled(s, FlushCommit(a), lifetime) && a in s.row
    ensures Located(Next(s, FlushCommit(a), lifetime), a)
  {
    hide Sound, LearnsNothing, Known, OneLive, Pending, Reads, Cleared, LiveIsNewest, RowIsBehind, ProbesAlone, LiveIsPlaced, StoreDecision;
    var step, c := FlushCommit(a), s.flush.todo[a];
    var s' := Next(s, step, lifetime);
    assert Waiting(s, a, c);
    assert Pending(s, a, c) by { WaitingIsPending(s, a, c); }
    CommitTeachesNothing(s, a, a, lifetime);
    PendingIsGenuine(s, a, c, lifetime);
    WhatIsStored(s, a, c, lifetime);
    PendingAfterCommit(s, s', a);
    OlderStaysOlder(s, s', a);
    forall t | Known(Gateway(s'), a, t) ensures Known(Gateway(s), a, t) { GatewayLearnsNothing(s, step, a, t, lifetime); }
    ProbesStayAlone(s, s', a);
    RowStaysBehind(s, s', a, c, lifetime);
    ClearedIsKept(s, a, c);
    LiveStaysPlaced(s, s', a, c, lifetime);
    forall d | Waiting(s', a, d) ensures Cleared(s', a, d) {
      assert Waiting(s, a, d) && c.refresh !in s.live;
      ClearedAgain(s, s', a, d, c, lifetime);
    }
  }

  lemma WaitingIsPending(s: State, a: AccountId, c: Credential)
    requires Waiting(s, a, c)
    ensures Pending(s, a, c)
  {
  }

  /** What is spent and would not displace what works is not written over it. */
  lemma ClearedIsKept(s: State, a: AccountId, c: Credential)
    requires a in s.row && Cleared(s, a, c)
    ensures c.refresh !in s.live && StoredToken(s, a).refresh in s.live ==> StoreDecision(s.row[a], c) == s.row[a]
  {
  }

  /** And after it the rest is as clear as before. */
  lemma ClearedAgain(s: State, s': State, a: AccountId, d: Credential, c: Credential, lifetime: nat)
    requires Sound(s, lifetime) && a in s.row && RowIsBehind(s, a) && Pending(s, a, c) && Cleared(s, a, c) && Cleared(s, a, d)
    requires c.refresh !in s.live
    requires a in s'.row && s'.row[a] == StoreDecision(s.row[a], c) && s'.live == s.live && s'.probes == s.probes
    ensures Cleared(s', a, d)
  {
    hide Sound, Pending, StoreDecision;
    ClearedIsKept(s, a, c);
    WhatIsStored(s, a, c, lifetime);
  }

  /** The row once a credential that was still to be written has been offered to it. */
  lemma WhatIsStored(s: State, a: AccountId, c: Credential, lifetime: nat)
    requires Sound(s, lifetime) && a in s.row && RowIsBehind(s, a) && Pending(s, a, c)
    ensures var r := ParseCredential(StoreDecision(s.row[a], c));
            && (c.refresh in s.live ==> r.refresh == c.refresh)
            && (r == StoredToken(s, a) || (r.refresh == c.refresh && r.expires <= c.expires))
  {
    UpdateThenParse(s.row[a], c);
    PendingIsGenuine(s, a, c, lifetime);
    StampBounds(c.expires);
  }

  lemma RowStaysBehind(s: State, s': State, a: AccountId, c: Credential, lifetime: nat)
    requires Sound(s, lifetime) && a in s.row && RowIsBehind(s, a) && LiveIsNewest(s, a) && Pending(s, a, c)
    requires a in s'.row && s'.row[a] == StoreDecision(s.row[a], c) && s'.live == s.live
    requires forall d :: Pending(s', a, d) ==> Pending(s, a, d)
    ensures RowIsBehind(s', a)
  {
    hide Pending;
    WhatIsStored(s, a, c, lifetime);
  }

  /** A commit moves the working token into the row or leaves it where it was. */
  lemma LiveStaysPlaced(s: State, s': State, a: AccountId, c: Credential, lifetime: nat)
    requires Sound(s, lifetime) && OneLive(s, a) && a in s.row && RowIsBehind(s, a) && LiveIsPlaced(s, a) && Pending(s, a, c)
    requires LearnsNothing(s, s', a) && s'.live == s.live
    requires a in s'.row && s'.row[a] == StoreDecision(s.row[a], c) && s'.managers == s.managers && s'.queue == s.queue
    requires forall p :: p in s.probes && s.probes[p] != Probe(a, c) ==> p in s'.probes && s'.probes[p] == s.probes[p]
    requires c.refresh !in s.live && StoredToken(s, a).refresh in s.live ==> s'.row[a] == s.row[a]
    ensures LiveIsPlaced(s', a)
  {
    hide Sound;
    PendingIsGenuine(s, a, c, lifetime);
    WhatIsStored(s, a, c, lifetime);
    forall t | t in s'.live && Known(s', a, t)
      ensures Placed(s', a, t)
    {
      assert Known(s, a, t) && Placed(s, a, t);
      if c.refresh in s.live {
        SameLive(s, a, t, c.refresh);
      } else if n :| MidRotation(s, a, n) && s.managers[n].unqueued.value.refresh == t {
        assert MidRotation(s', a, n) && s'.managers[n].unqueued.value.refresh == t;
      } else if p :| ProbeKnows(s, a, p, t) {
        assert ProbeKnows(s', a, p, t);
      }
    }
  }

  /** `diagnose` storing what it obtained. */
  lemma LocatedProbeCommit(s: State, p: ActorId, a: AccountId, lifetime: nat)
    requires Sound(s, lifetime) && OneLive(s, a) && Located(s, a) && Enabled(s, ProbeCommit(p), lifetime)
    requires s.probes[p].account == a && a in s.row
    ensures Located(Next(s, ProbeCommit(p), lifetime), a)
  {
    hide Sound, LearnsNothing, Known, OneLive, Pending, Waiting, Reads, LiveIsNewest, RowIsBehind, LiveIsPlaced, StoreDecision, WriterKnows;
    var step, c := ProbeCommit(p), s.probes[p].cred;
    var s' := Next(s, step, lifetime);
    assert s.probes[p] == Probe(a, c) && ProbeKnows(s, a, p, c.refresh);
    assert Pending(s, a, c) by { ProbesPend(s, a, p, c); }
    ProbeEndTeachesNothing(s, step, a, lifetime);
    PendingIsGenuine(s, a, c, lifetime);
    WhatIsStored(s, a, c, lifetime);
    assert forall d :: Queued(s', a, d) ==> Queued(s, a, d);
    PendingAfterCommit(s, s', a);
    OlderStaysOlder(s, s', a);
    assert forall q :: q in s'.probes ==> s'.probes[q].account != a;
    forall t ensures !ProbeHolds(s', a, t) { }
    forall t | t in s.live ensures !Reads(s, a, t) && !WriterKnows(s, a, t) {
      if Reads(s, a, t) || WriterKnows(s, a, t) {
        KnownByReading(s, a, t);
      }
    }
    TheRowCanBeRead(s, a, lifetime);
    WriterKnowsWhatItWrites(s, a);
    assert FlushAgrees(s', a);
    RowStaysBehind(s, s', a, c, lifetime);
    LiveStaysPlaced(s, s', a, c, lifetime);
    forall d | Waiting(s', a, d) ensures Cleared(s', a, d) {
      SameWaiting(s, s', a, d);
      assert Cleared(s, a, d);
      WaitingIsGenuine(s, a, d, lifetime);
      if c.refresh in s.live {
        StoredSpaced(s, a, c, d, lifetime);
      }
    }
  }

  lemma WaitingIsGenuine(s: State, a: AccountId, d: Credential, lifetime: nat)
    requires Sound(s, lifetime) && Waiting(s, a, d)
    ensures 0 < d.expires
  {
  }

  /** What is stored is still newer, at the grain of the store, than what expires a millisecond earlier. */
  lemma StoredSpaced(s: State, a: AccountId, c: Credential, d: Credential, lifetime: nat)
    requires Sound(s, lifetime) && a in s.row && RowIsBehind(s, a) && Pending(s, a, c) && c.refresh in s.live
    requires 0 < d.expires && d.expires + MILLISECOND <= c.expires
    ensures var r := ParseCredential(StoreDecision(s.row[a], c)); r.refresh == c.refresh && d.expires < r.expires
  {
    UpdateThenParse(s.row[a], c);
    PendingIsGenuine(s, a, c, lifetime);
    StampBounds(c.expires);
    assert c.expires / MILLISECOND > 0;
  }

  lemma ProbesPend(s: State, a: AccountId, p: ActorId, c: Credential)
    requires p in s.probes && s.probes[p] == Probe(a, c)
    ensures Pending(s, a, c)
  {
  }

  lemma SameWaiting(s: State, s': State, a: AccountId, d: Credential)
    requires s'.queue == s.queue && s'.flush == s.flush
    ensures Waiting(s', a, d) ==> Waiting(s, a, d)
  {
  }

  lemma WriterKnowsWhatItWrites(s: State, a: AccountId)
    ensures s.flush.Writing? && a in s.flush.todo ==> WriterKnows(s, a, s.flush.todo[a].refresh)
  {
  }

  lemma KnownByReading(s: State, a: AccountId, t: string)
    requires Reads(s, a, t) || WriterKnows(s, a, t)
    ensures Known(Gateway(s), a, t)
  {
    assert Reads(s, a, t) ==> Reads(Gateway(s), a, t);
  }

  lemma TheRowCanBeRead(s: State, a: AccountId, lifetime: nat)
    requires Sound(s, lifetime) && a in s.row
    ensures Reads(s, a, StoredToken(s, a).refresh)
  {
  }

  // ------------------------------------------------------------ a rotation of the account

  /** After a rotation only the new token works, and everything else is older. */
  lemma LocatedAfterIssue(s: State, s': State, a: AccountId, got: Credential, lifetime: nat)
    requires Sound(s, lifetime) && Sound(s', lifetime) && OneLive(s', a) && ProbesAlone(s', a) && a in s.row
    requires got.refresh !in s.minted && got.refresh in s'.live && Known(s', a, got.refresh) && Placed(s', a, got.refresh)
    requires s.now + lifetime < got.expires
    requires s'.row == s.row && s'.queue == s.queue && s'.flush == s.flush && s'.past == s.past
    requires forall d :: Pending(s', a, d) ==> d == got || Pending(s, a, d)
    requires forall p :: p in s'.probes && s'.probes[p].account == a ==> s'.probes[p].cred == got && SpacedFromWaiting(s, a, got)
    ensures Located(s', a)
  {
    hide Sound, OneLive, ProbesAlone, Known, Pending, Waiting, Reads, WriterKnows;
    forall d | Pending(s', a, d)
      ensures d == got || (d.expires < got.expires && d.refresh !in s'.live)
    {
      PendingIsGenuine(s', a, d, lifetime);
      if d != got {
        PendingIsGenuine(s, a, d, lifetime);
        KnownIsMinted(s, a, d.refresh, lifetime);
        OnlyTheNewIsLive(s', a, got, d.refresh, lifetime);
      }
    }
    StoredIsKnown(s, a, lifetime);
    KnownIsMinted(s, a, StoredToken(s, a).refresh, lifetime);
    StoredIsKnown(s', a, lifetime);
    OnlyTheNewIsLive(s', a, got, StoredToken(s', a).refresh, lifetime);
    NoEmptyTokens(s', lifetime);
    forall c | Waiting(s', a, c) ensures Cleared(s', a, c) { SameWaiting(s, s', a, c); }
    if s.flush.Writing? && a in s.flush.todo && s.flush.todo[a].refresh in s'.live {
      QueuedIsMinted(s, a, lifetime);
      WriterKnowsWhatItWrites(s', a);
      KnownByAny(s', a, s.flush.todo[a].refresh);
      OnlyTheNewIsLive(s', a, got, s.flush.todo[a].refresh, lifetime);
    }
    forall t | t in s'.live && Known(s', a, t) ensures Placed(s', a, t) {
      OnlyTheNewIsLive(s', a, got, t, lifetime);
    }
  }

  lemma OnlyTheNewIsLive(s: State, a: AccountId, got: Credential, t: string, lifetime: nat)
    requires OneLive(s, a) && Known(s, a, got.refresh) && got.refresh in s.live && Known(s, a, t)
    ensures t in s.live ==> t == got.refresh
  {
    hide Known;
  }

  lemma KnownByAny(s: State, a: AccountId, t: string)
    requires Reads(s, a, t) || WriterKnows(s, a, t) || ProbeHolds(s, a, t)
    ensures Known(s, a, t)
  {
  }

  lemma NoEmptyTokens(s: State, lifetime: nat)
    requires Sound(s, lifetime)
    ensures "" !in s.live
  {
  }

  ghost predicate SpacedFromWaiting(s: State, a: AccountId, got: Credential) {
    forall c :: Waiting(s, a, c) ==> c.expires + MILLISECOND <= got.expires
  }

  lemma QueuedIsMinted(s: State, a: AccountId, lifetime: nat)
    requires Sound(s, lifetime) && s.flush.Writing? && a in s.flush.todo
    ensures s.flush.todo[a].refresh in s.minted
  {
  }

  lemma LocatedRefresh(s: State, m: ActorId, got: Credential, at: Instant, a: AccountId, lifetime: nat)
    requires Enabled(s, Refresh(m, got, at), lifetime) && s.managers[m].account == a && a in s.row
    requires Sound(s, lifetime) && Chained(s, a) && Located(s, a)
    ensures Located(Next(s, Refresh(m, got, at), lifetime), a)
  {
    hide Sound, Alone, OneLive, Known, Waiting;
    var step := Refresh(m, got, at);
    var s' := Next(s, step, lifetime);
    SoundNext(s, step, lifetime);
    ChainedNext(s, step, a, lifetime);
    TheManagersTokenIsKnown(s, m);
    assert forall p :: p in s.probes ==> s.probes[p].account != a;
    assert ProbesAlone(s', a);
    assert MidRotation(s', a, m) && s'.managers[m].unqueued.value == got;
    assert Known(s', a, got.refresh) by { TheManagersTokenIsKnown(s', m); GatewayKnowledge(s', a, got.refresh); }
    forall d | Pending(s', a, d) ensures d == got || Pending(s, a, d) {
      assert Queued(s', a, d) ==> Queued(s, a, d);
      if n :| MidRotation(s', a, n) && s'.managers[n].unqueued.value == d {
        if n != m {
          assert MidRotation(s, a, n);
        }
      }
    }
    LocatedAfterIssue(s, s', a, got, lifetime);
  }

  lemma TheManagersTokenIsKnown(s: State, m: ActorId)
    requires m in s.managers
    ensures Known(Gateway(s), s.managers[m].account, s.managers[m].cred.refresh)
  {
    assert ManagerKnows(Gateway(s), s.managers[m].account, m, s.managers[m].cred.refresh);
  }

  lemma LocatedProbeRefresh(s: State, step: Step, lifetime: nat)
    requires step.ProbeRefresh? && Enabled(s, step, lifetime) && step.a in s.row
    requires Sound(s, lifetime) && Chained(s, step.a) && Located(s, step.a) && Clears(s, step, step.a)
    ensures Located(Next(s, step, lifetime), step.a)
  {
    hide Sound, Alone, OneLive, Known, Waiting, LearnsNothing;
    var a, got, spent := step.a, step.got, ParseCredential(step.read).refresh;
    var s' := Next(s, step, lifetime);
    SoundNext(s, step, lifetime);
    ChainedNext(s, step, a, lifetime);
    assert Reads(s, a, spent) by { assert step.read in s.past[a]; }
    KnownByReading(s, a, spent);
    assert forall p :: p in s.probes ==> s.probes[p].account != a;
    assert forall p :: p in s'.probes && s'.probes[p].account == a ==> p == step.p;
    forall t | t in s'.live ensures !Known(Gateway(s'), a, t) {
      if Known(Gateway(s'), a, t) {
        assert Known(Gateway(s), a, t) by { SameGateway(s, s', a, t); }
        GatewayKnowledge(s, a, t);
        KnownIsMinted(s, a, t, lifetime);
        BothLive(s, a, t, spent);
      }
    }
    assert ProbesAlone(s', a);
    assert step.p in s'.probes && s'.probes[step.p] == Probe(a, got) && ProbeKnows(s', a, step.p, got.refresh);
    KnownByAny(s', a, got.refresh);
    forall d | Pending(s', a, d) ensures d == got || Pending(s, a, d) {
      assert Queued(s', a, d) ==> Queued(s, a, d);
      if n :| MidRotation(s', a, n) && s'.managers[n].unqueued.value == d {
        assert MidRotation(s, a, n);
      }
    }
    LocatedAfterIssue(s, s', a, got, lifetime);
  }

  lemma SameGateway(s: State, s': State, a: AccountId, t: string)
    requires s'.past == s.past && s'.managers == s.managers && s'.queue == s.queue && s'.flush == s.flush
    requires Known(Gateway(s'), a, t)
    ensures Known(Gateway(s), a, t)
  {
    KnownFrame(Gateway(s), Gateway(s'), a, t);
  }

  lemma BothLive(s: State, a: AccountId, t: string, u: string)
    requires OneLive(s, a) && Known(s, a, t) && t in s.live && Known(Gateway(s), a, u) && u in s.live
    ensures t == u
  {
    GatewayKnowledge(s, a, u);
  }

  lemma LocatedAdd(s: State, a: AccountId, blob: Blob, lifetime: nat)
    requires Sound(s, lifetime) && Enabled(s, AddAccount(a, blob), lifetime)
    ensures Located(Next(s, AddAccount(a, blob), lifetime), a)
  {
    var s' := Next(s, AddAccount(a, blob), lifetime);
    forall m | m in s'.managers ensures s'.managers[m].account != a {
      assert ManagerSound(s, s.managers[m], lifetime);
    }
    forall t | Known(s', a, t) ensures t == ParseCredential(blob).refresh {
      PutTeaches(s, a, blob, a, t);
    }
  }

  lemma LocatedNext(s: State, step: Step, a: AccountId, lifetime: nat)
    requires Sound(s, lifetime) && Chained(s, a) && Located(s, a) && Enabled(s, step, lifetime)
    requires OneSignIn(step, a) && Clears(s, step, a)
    ensures Located(Next(s, step, lifetime), a)
  {
    hide Sound, Located, OneLive, Alone, Clears;
    if a !in Next(s, step, lifetime).row {
      OffThePanel(Next(s, step, lifetime), a);
    } else if step.AddAccount? && step.a == a {
      LocatedAdd(s, a, step.blob, lifetime);
    } else if RotatesAccount(s, step, a) {
      if step.Refresh? {
        LocatedRefresh(s, step.m, step.got, step.at, a, lifetime);
      } else {
        LocatedProbeRefresh(s, step, lifetime);
      }
    } else if step.Enqueue? && s.managers[step.m].account == a {
      LocatedEnqueue(s, step.m, a, lifetime);
    } else if step.FlushBegin? || step.FlushSettle? || step.FlushEnd? {
      LocatedFlush(s, step, a, lifetime);
    } else if step.FlushCommit? && step.a == a {
      LocatedCommit(s, a, lifetime);
    } else if step.ProbeCommit? && s.probes[step.p].account == a {
      LocatedProbeCommit(s, step.p, a, lifetime);
    } else if step.ProbeFails? && s.probes[step.p].account == a {
      LocatedProbeFails(s, step.p, a, lifetime);
    } else {
      LocatedElsewhere(s, step, a, lifetime);
    }
  }

  lemma OffThePanel(s: State, a: AccountId)
    requires a !in s.row
    ensures Located(s, a)
  {
  }

  // ------------------------------------------------------------ when a flush is told of its writes

  /** Once a working token can be read, or `diagnose` has it, the writer has nothing left to write. */
  ghost predicate ReadIsWritten(s: State, a: AccountId) {
    a in s.row ==> forall c, t :: Waiting(s, a, c) && t in s.live ==> !Reads(s, a, t) && !ProbeHolds(s, a, t)
  }

  /** A flush that has committed its write for the account is told so, and takes it off the queue. */
  predicate Acknowledged(s: State, step: Step, a: AccountId) {
    step.FlushEnd? ==> !Settling(s, a)
  }

  /** Then nothing more is asked. */
  lemma AcknowledgedClears(s: State, step: Step, a: AccountId, lifetime: nat)
    requires ReadIsWritten(s, a) && Enabled(s, step, lifetime) && Acknowledged(s, step, a)
    ensures Clears(s, step, a)
  {
    hide Waiting;
    if step.ProbeRefresh? && step.a == a {
      assert Reads(s, a, ParseCredential(step.read).refresh) by { assert step.read in s.past[a]; }
    }
  }

  /** A step that makes nothing new readable, nor anything new wait, keeps it so. */
  lemma ReadIsWrittenStays(s: State, s': State, a: AccountId)
    requires ReadIsWritten(s, a) && a in s.row
    requires forall c :: Waiting(s', a, c) ==> Waiting(s, a, c)
    requires forall t :: t in s'.live && (Reads(s', a, t) || ProbeHolds(s', a, t)) ==> t in s.live && (Reads(s, a, t) || ProbeHolds(s, a, t))
    ensures ReadIsWritten(s', a)
  {
    hide Waiting, Reads, ProbeHolds;
    forall c, t | Waiting(s', a, c) && t in s'.live ensures !Reads(s', a, t) && !ProbeHolds(s', a, t) {
      assert Waiting(s, a, c);
    }
  }

  lemma ReadIsMinted(s: State, a: AccountId, t: string, lifetime: nat)
    requires Sound(s, lifetime) && (Reads(s, a, t) || ProbeHolds(s, a, t))
    ensures t == "" || t in s.minted
  {
    KnownByAny(s, a, t);
    KnownIsMinted(s, a, t, lifetime);
  }

  /** Steps of others, and of the flush, make nothing new wait. */
  lemma NothingNewWaits(s: State, step: Step, a: AccountId, c: Credential, lifetime: nat)
    requires Enabled(s, step, lifetime) && Acknowledged(s, step, a)
    requires !(step.Enqueue? && s.managers[step.m].account == a)
    requires Waiting(Next(s, step, lifetime), a, c)
    ensures Waiting(s, a, c)
  {
  }

  lemma NothingNewIsHeld(s: State, step: Step, a: AccountId, t: string, lifetime: nat)
    requires Enabled(s, step, lifetime) && !(step.ProbeRefresh? && step.a == a)
    requires ProbeHolds(Next(s, step, lifetime), a, t)
    ensures ProbeHolds(s, a, t)
  {
    var p :| ProbeKnows(Next(s, step, lifetime), a, p, t);
    assert ProbeKnows(s, a, p, t);
  }

  /** Tokens that come to life are new to everyone. */
  lemma NothingComesBack(s: State, step: Step, t: string, lifetime: nat)
    requires Enabled(s, step, lifetime) && t in Next(s, step, lifetime).live
    ensures t in s.live || (t != "" && t !in s.minted)
  {
  }

  lemma ReadIsWrittenElsewhere(s: State, step: Step, a: AccountId, lifetime: nat)
    requires Sound(s, lifetime) && ReadIsWritten(s, a) && Enabled(s, step, lifetime) && Acknowledged(s, step, a) && a in s.row
    requires !((step.Enqueue? || step.Refresh?) && s.managers[step.m].account == a)
    requires !((step.FlushCommit? || step.AddAccount? || step.HandUp? || step.ProbeRefresh?) && step.a == a)
    requires !(step.ProbeCommit? && s.probes[step.p].account == a)
    ensures ReadIsWritten(Next(s, step, lifetime), a)
  {
    hide Sound, Next, Enabled, Waiting, Reads, ProbeHolds, ReadIsWritten;
    var s' := Next(s, step, lifetime);
    forall c | Waiting(s', a, c) ensures Waiting(s, a, c) { NothingNewWaits(s, step, a, c, lifetime); }
    forall t | t in s'.live && (Reads(s', a, t) || ProbeHolds(s', a, t))
      ensures t in s.live && (Reads(s, a, t) || ProbeHolds(s, a, t))
    {
      if Reads(s', a, t) {
        NothingNewToRead(s, step, a, t, lifetime);
      }
      if ProbeHolds(s', a, t) {
        NothingNewIsHeld(s, step, a, t, lifetime);
      }
      ReadIsMinted(s, a, t, lifetime);
      NothingComesBack(s, step, t, lifetime);
    }
    ReadIsWrittenStays(s, s', a);
  }

  /** A manager's rotation, or its queueing, leaves no working token to be read. */
  lemma ReadIsWrittenByManager(s: State, step: Step, a: AccountId, lifetime: nat)
    requires Sound(s, lifetime) && Chained(s, a) && Enabled(s, step, lifetime) && a in s.row
    requires (step.Enqueue? || step.Refresh?) && s.managers[step.m].account == a
    ensures ReadIsWritten(Next(s, step, lifetime), a)
  {
    hide Sound, Waiting, Known, KnownBeside;
    var s' := Next(s, step, lifetime);
    SameProbesHold(s, s', a);
    TheManagersTokenIsKnown(s, step.m);
    var spent := s.managers[step.m].cred.refresh;
    GatewayKnowledge(s, a, spent);
    assert step.Enqueue? ==> MidRotation(s, a, step.m);
    forall t | t in s'.live ensures !Reads(s', a, t) && !ProbeHolds(s', a, t) {
      if Reads(s', a, t) || ProbeHolds(s', a, t) {
        assert Reads(s', a, t) ==> Reads(s, a, t);
        ReadIsMinted(s, a, t, lifetime);
        NothingComesBack(s, step, t, lifetime);
        KnownByAny(s, a, t);
        ReadIsBeside(s, a, step.m, t);
      }
    }
  }

  lemma ReadIsBeside(s: State, a: AccountId, m: ActorId, t: string)
    requires Reads(s, a, t) || ProbeHolds(s, a, t)
    ensures KnownBeside(s, a, m, t)
  {
  }

  /** What a commit makes readable is what it has written. */
  lemma ReadIsWrittenByCommit(s: State, a: AccountId, lifetime: nat)
    requires Sound(s, lifetime) && Located(s, a) && ReadIsWritten(s, a) && Enabled(s, FlushCommit(a), lifetime) && a in s.row
    ensures ReadIsWritten(Next(s, FlushCommit(a), lifetime), a)
  {
    hide Sound, Reads;
    var s', c := Next(s, FlushCommit(a), lifetime), s.flush.todo[a];
    assert Waiting(s, a, c);
    QueuedIsMinted(s, a, lifetime);
    NoEmptyTokens(s, lifetime);
    SameProbesHold(s, s', a);
    forall d, t | Waiting(s', a, d) && t in s'.live ensures !Reads(s', a, t) && !ProbeHolds(s', a, t) {
      assert Waiting(s, a, d) && c.refresh !in s.live;
      TodoIsGenuine(s, a, lifetime);
      CommitIsRead(s, s', a, c, t, lifetime);
    }
  }

  lemma TodoIsGenuine(s: State, a: AccountId, lifetime: nat)
    requires Sound(s, lifetime) && s.flush.Writing? && a in s.flush.todo
    ensures Genuine(s, s.flush.todo[a], lifetime)
  {
  }

  lemma CommitIsRead(s: State, s': State, a: AccountId, c: Credential, t: string, lifetime: nat)
    requires Sound(s, lifetime) && c.refresh != "" && s'.past == Stored(s, a, c).past
    ensures Reads(s', a, t) ==> Reads(s, a, t) || t == c.refresh
  {
    StoredTeaches(s, a, c, a, t, lifetime);
    assert Reads(s', a, t) ==> Reads(Stored(s, a, c), a, t);
  }

  lemma ReadIsWrittenByProbe(s: State, step: Step, a: AccountId, lifetime: nat)
    requires Sound(s, lifetime) && ReadIsWritten(s, a) && Enabled(s, step, lifetime) && a in s.row
    requires (step.ProbeRefresh? && step.a == a) || (step.ProbeCommit? && s.probes[step.p].account == a)
    ensures ReadIsWritten(Next(s, step, lifetime), a)
  {
    hide Sound, Reads, Waiting;
    var s' := Next(s, step, lifetime);
    forall c ensures Waiting(s', a, c) ==> Waiting(s, a, c) { SameWaiting(s, s', a, c); }
    if step.ProbeRefresh? {
      assert Reads(s, a, ParseCredential(step.read).refresh) by { ReadFromPast(s, a, step.read); }
    } else {
      var c := s.probes[step.p].cred;
      assert ProbeKnows(s, a, step.p, c.refresh);
      ProbesAreGenuine(s, step.p, lifetime);
      forall d, t | Waiting(s', a, d) && t in s'.live ensures !Reads(s', a, t) && !ProbeHolds(s', a, t) {
        CommitIsRead(s, s', a, c, t, lifetime);
        if ProbeHolds(s', a, t) {
          NothingNewIsHeld(s, step, a, t, lifetime);
        }
      }
    }
  }

  lemma ReadFromPast(s: State, a: AccountId, b: Blob)
    requires a in s.past && b in s.past[a]
    ensures Reads(s, a, ParseCredential(b).refresh)
  {
  }

  lemma ProbesAreGenuine(s: State, p: ActorId, lifetime: nat)
    requires Sound(s, lifetime) && p in s.probes
    ensures Genuine(s, s.probes[p].cred, lifetime)
  {
  }

  lemma ReadIsWrittenNext(s: State, step: Step, a: AccountId, lifetime: nat)
    requires Sound(s, lifetime) && Chained(s, a) && Located(s, a) && ReadIsWritten(s, a) && Enabled(s, step, lifetime)
    requires OneSignIn(step, a) && Acknowledged(s, step, a)
    ensures ReadIsWritten(Next(s, step, lifetime), a)
  {
    hide Sound, Located, OneLive, Alone, ReadIsWritten, Acknowledged;
    if a !in Next(s, step, lifetime).row {
      NothingIsRead(Next(s, step, lifetime), a);
    } else if step.AddAccount? && step.a == a {
      ANewAccountHasNothingToWrite(s, step, a, lifetime);
    } else if (step.Enqueue? || step.Refresh?) && s.managers[step.m].account == a {
      ReadIsWrittenByManager(s, step, a, lifetime);
    } else if step.FlushCommit? && step.a == a {
      ReadIsWrittenByCommit(s, a, lifetime);
    } else if (step.ProbeRefresh? && step.a == a) || (step.ProbeCommit? && s.probes[step.p].account == a) {
      ReadIsWrittenByProbe(s, step, a, lifetime);
    } else {
      ReadIsWrittenElsewhere(s, step, a, lifetime);
    }
  }

  lemma NothingIsRead(s: State, a: AccountId)
    requires a !in s.row
    ensures ReadIsWritten(s, a)
  {
  }

  lemma ANewAccountHasNothingToWrite(s: State, step: Step, a: AccountId, lifetime: nat)
    requires Sound(s, lifetime) && step.AddAccount? && step.a == a && Enabled(s, step, lifetime)
    ensures ReadIsWritten(Next(s, step, lifetime), a)
  {
    hide Reads, ProbeHolds;
  }

  // ------------------------------------------------------------ over every run

  /** One sign-in, every flush told of its writes. */
  predicate AcknowledgedSignIn(s: State, steps: seq<Step>, a: AccountId, lifetime: nat)
    requires Possible(s, steps, lifetime)
    decreases |steps|
  {
    steps == [] ||
    (OneSignIn(steps[0], a) && Acknowledged(s, steps[0], a) && AcknowledgedSignIn(Next(s, steps[0], lifetime), steps[1..], a, lifetime))
  }

  /** One sign-in, nothing said of acknowledgements, and each step clear. */
  ghost predicate ClearSignIn(s: State, steps: seq<Step>, a: AccountId, lifetime: nat)
    requires Possible(s, steps, lifetime)
    decreases |steps|
  {
    steps == [] ||
    (OneSignIn(steps[0], a) && Clears(s, steps[0], a) && ClearSignIn(Next(s, steps[0], lifetime), steps[1..], a, lifetime))
  }

  /** Nothing of the account's is in hand: no rotation mid-way, queued, or held by `diagnose`. */
  ghost predicate Drained(s: State, a: AccountId) {
    && a !in s.queue
    && (forall m :: !MidRotation(s, a, m))
    && (forall p :: p in s.probes ==> s.probes[p].account != a)
  }

  /** Every token anyone on this side knows and can still spend is the one in the panel row. */
  ghost predicate TheLiveOneIsStored(s: State, a: AccountId) {
    a in s.row ==> forall t :: Known(s, a, t) && t in s.live ==> StoredToken(s, a).refresh == t
  }

  lemma DrainedIsStored(s: State, a: AccountId)
    requires Located(s, a)
    ensures Drained(s, a) ==> TheLiveOneIsStored(s, a)
  {
    hide Known;
    if Drained(s, a) && a in s.row {
      forall t | Known(s, a, t) && t in s.live ensures StoredToken(s, a).refresh == t {
        assert Placed(s, a, t);
      }
    }
  }

  /**
    Once the queue has drained, whatever the run before it, the only token known for
    the account that can still be spent is the one in the panel row, even when flushes
    are not told of their writes, if the steps are clear.
   */
  lemma {:induction false} ClearStepsKeepTheLiveOne(s: State, steps: seq<Step>, a: AccountId, lifetime: nat)
    requires Sound(s, lifetime) && Chained(s, a) && Located(s, a)
    requires Possible(s, steps, lifetime) && ClearSignIn(s, steps, a, lifetime)
    ensures Drained(Run(s, steps, lifetime), a) ==> TheLiveOneIsStored(Run(s, steps, lifetime), a)
    decreases |steps|
  {
    hide Sound, Chained, Located, Next, Drained, TheLiveOneIsStored;
    if steps == [] {
      DrainedIsStored(s, a);
    } else {
      SoundNext(s, steps[0], lifetime);
      ChainedNext(s, steps[0], a, lifetime);
      LocatedNext(s, steps[0], a, lifetime);
      ClearStepsKeepTheLiveOne(Next(s, steps[0], lifetime), steps[1..], a, lifetime);
    }
  }

  /** When flushes are told of their writes every step is clear. */
  lemma {:induction false} AcknowledgedIsClear(s: State, steps: seq<Step>, a: AccountId, lifetime: nat)
    requires Sound(s, lifetime) && Chained(s, a) && Located(s, a) && ReadIsWritten(s, a)
    requires Possible(s, steps, lifetime) && AcknowledgedSignIn(s, steps, a, lifetime)
    ensures ClearSignIn(s, steps, a, lifetime)
    decreases |steps|
  {
    hide Sound, Chained, Located, ReadIsWritten, Next, Clears;
    if steps != [] {
      AcknowledgedClears(s, steps[0], a, lifetime);
      SoundNext(s, steps[0], lifetime);
      ChainedNext(s, steps[0], a, lifetime);
      LocatedNext(s, steps[0], a, lifetime);
      ReadIsWrittenNext(s, steps[0], a, lifetime);
      AcknowledgedIsClear(Next(s, steps[0], lifetime), steps[1..], a, lifetime);
    }
  }

  /**
    Once the queue has drained, whatever the run before it, the only token known for
    the account that can still be spent is the one in the panel row: a gateway
    restarted here picks up a login that works, if any copy of it does. All that is
    asked is that a flush which committed a write is told so.
   */
  lemma TheStoredLoginIsTheLiveOne(s: State, steps: seq<Step>, a: AccountId, lifetime: nat)
    requires Sound(s, lifetime) && Chained(s, a) && Located(s, a) && ReadIsWritten(s, a)
    requires Possible(s, steps, lifetime) && AcknowledgedSignIn(s, steps, a, lifetime)
    ensures Drained(Run(s, steps, lifetime), a) ==> TheLiveOneIsStored(Run(s, steps, lifetime), a)
  {
    hide *;
    AcknowledgedIsClear(s, steps, a, lifetime);
    ClearStepsKeepTheLiveOne(s, steps, a, lifetime);
  }

  lemma InitIsLocated(s: State, a: AccountId)
    requires Init(s)
    ensures Located(s, a) && ReadIsWritten(s, a)
  {
  }

  lemma SafeKeeps(s: State, a: AccountId, lifetime: nat)
    requires Safe(s, a, lifetime)
    ensures Kept(s, a)
  {
  }

  /** All of it from the start: nothing read, held or queued. */
  lemma FromTheStart(s: State, steps: seq<Step>, a: AccountId, lifetime: nat)
    requires Init(s) && Possible(s, steps, lifetime)
    ensures OneSignInRun(steps, a) ==> Kept(Run(s, steps, lifetime), a)
    ensures var end := Run(s, steps, lifetime);
            AcknowledgedSignIn(s, steps, a, lifetime) || ClearSignIn(s, steps, a, lifetime) ==>
              Drained(end, a) ==> TheLiveOneIsStored(end, a)
  {
    hide Init, Safe, Chained, Located, ReadIsWritten, Kept, Known, Drained, Next, TheLiveOneIsStored;
    InitIsSafe(s, a, lifetime);
    assert Sound(s, lifetime) by { SafeIsSound(s, a, lifetime); }
    InitIsChained(s, a);
    InitIsLocated(s, a);
    if OneSignInRun(steps, a) {
      OneSignInLosesNothing(s, steps, a, lifetime);
      SafeKeeps(Run(s, steps, lifetime), a, lifetime);
    }
    if AcknowledgedSignIn(s, steps, a, lifetime) {
      TheStoredLoginIsTheLiveOne(s, steps, a, lifetime);
    }
    if ClearSignIn(s, steps, a, lifetime) {
      ClearStepsKeepTheLiveOne(s, steps, a, lifetime);
    }
  }
}
