/**
  Within one sign-in the single-use token itself keeps an account's managers apart:
  only one of the tokens anybody knows still works, so no two of them can be between
  obtaining a rotation and queueing it, and the last flush stores the one that works.
 */
module SingleSignIn {
  import opened Wrappers
  import opened Times
  import opened Credentials
  import opened Rotation
  import opened KeptRotations

  ghost predicate Reads(s: State, a: AccountId, t: string) {
    exists b :: a in s.past && b in s.past[a] && ParseCredential(b).refresh == t
  }

  ghost predicate ManagerKnows(s: State, a: AccountId, m: ActorId, t: string) {
    m in s.managers && s.managers[m].account == a && s.managers[m].cred.refresh == t
  }

  ghost predicate WriterKnows(s: State, a: AccountId, t: string) {
    || (a in s.queue && s.queue[a].refresh == t)
    || (s.flush.Writing? && a in s.flush.todo && s.flush.todo[a].refresh == t)
  }

  ghost predicate ProbeKnows(s: State, a: AccountId, p: ActorId, t: string) {
    p in s.probes && s.probes[p].account == a && s.probes[p].cred.refresh == t
  }

  /** A refresh token someone could still spend for the account, other than through manager `m`. */
  ghost predicate KnownBeside(s: State, a: AccountId, m: ActorId, t: string) {
    Reads(s, a, t) || WriterKnows(s, a, t) || (exists n :: n != m && ManagerKnows(s, a, n, t)) || (exists p :: ProbeKnows(s, a, p, t))
  }

  ghost predicate Known(s: State, a: AccountId, t: string) {
    Reads(s, a, t) || WriterKnows(s, a, t) || (exists n :: ManagerKnows(s, a, n, t)) || (exists p :: ProbeKnows(s, a, p, t))
  }

  /** At most one of the tokens known for an account still works. */
  ghost predicate OneLive(s: State, a: AccountId) {
    forall t, u :: Known(s, a, t) && Known(s, a, u) && t in s.live && u in s.live ==> t == u
  }

  /** While a manager is mid-rotation nobody else knows a token that works. */
  ghost predicate Alone(s: State, a: AccountId) {
    forall m, t :: MidRotation(s, a, m) && t in s.live ==> !KnownBeside(s, a, m, t)
  }

  ghost predicate Chained(s: State, a: AccountId) {
    OneLive(s, a) && Alone(s, a)
  }

  /** Nothing new is known between two states, and no token came back to life. */
  ghost predicate LearnsNothing(s: State, s': State, a: AccountId) {
    && (forall t :: t in s'.live ==> t in s.live || t !in s.minted)
    && (forall t :: Known(s', a, t) ==> Known(s, a, t))
    && (forall m :: MidRotation(s', a, m) ==> MidRotation(s, a, m))
    && (forall m, t :: MidRotation(s', a, m) && KnownBeside(s', a, m, t) ==> KnownBeside(s, a, m, t))
  }

  lemma KnownIsMinted(s: State, a: AccountId, t: string, lifetime: nat)
    requires Sound(s, lifetime) && Known(s, a, t)
    ensures t == "" || t in s.minted
  {
    if Reads(s, a, t) {
      var b :| a in s.past && b in s.past[a] && ParseCredential(b).refresh == t;
      assert Plausible(s, b, lifetime);
    } else if WriterKnows(s, a, t) {
    } else if exists n :: ManagerKnows(s, a, n, t) {
      var n :| ManagerKnows(s, a, n, t);
      assert ManagerSound(s, s.managers[n], lifetime);
    }
  }

  lemma BesideIsKnown(s: State, a: AccountId, m: ActorId, t: string)
    requires KnownBeside(s, a, m, t)
    ensures Known(s, a, t)
  {
  }

  lemma ChainedStays(s: State, s': State, a: AccountId, lifetime: nat)
    requires Sound(s, lifetime) && Chained(s, a) && LearnsNothing(s, s', a) && "" !in s'.live
    ensures Chained(s', a)
  {
    forall t, u | Known(s', a, t) && Known(s', a, u) && t in s'.live && u in s'.live
      ensures t == u
    {
      KnownIsMinted(s, a, t, lifetime);
      KnownIsMinted(s, a, u, lifetime);
    }
    forall m, t | MidRotation(s', a, m) && t in s'.live
      ensures !KnownBeside(s', a, m, t)
    {
      if KnownBeside(s', a, m, t) {
        BesideIsKnown(s, a, m, t);
        KnownIsMinted(s, a, t, lifetime);
      }
    }
  }

  /** What is known depends on nothing else than these parts of the state. */
  lemma SameKnowledge(s: State, s': State, a: AccountId)
    requires s'.past == s.past && s'.managers == s.managers && s'.queue == s.queue
    requires s'.flush == s.flush && s'.probes == s.probes
    requires forall t :: t in s'.live ==> t in s.live || t !in s.minted
    ensures LearnsNothing(s, s', a)
  {
    forall t | Known(s', a, t) ensures Known(s, a, t) {
      KnownFrame(s, s', a, t);
    }
    forall m, t | MidRotation(s', a, m) && KnownBeside(s', a, m, t) ensures KnownBeside(s, a, m, t) {
      BesideFrame(s, s', a, m, t);
    }
  }

  lemma KnownFrame(s: State, s': State, a: AccountId, t: string)
    requires s'.past == s.past && s'.managers == s.managers && s'.queue == s.queue
    requires s'.flush == s.flush && s'.probes == s.probes
    requires Known(s', a, t)
    ensures Known(s, a, t)
  {
    if exists n :: ManagerKnows(s', a, n, t) {
      var n :| ManagerKnows(s', a, n, t);
      assert ManagerKnows(s, a, n, t);
    } else if exists p :: ProbeKnows(s', a, p, t) {
      var p :| ProbeKnows(s', a, p, t);
      assert ProbeKnows(s, a, p, t);
    }
  }

  lemma BesideFrame(s: State, s': State, a: AccountId, m: ActorId, t: string)
    requires s'.past == s.past && s'.managers == s.managers && s'.queue == s.queue
    requires s'.flush == s.flush && s'.probes == s.probes
    requires KnownBeside(s', a, m, t)
    ensures KnownBeside(s, a, m, t)
  {
    if exists n :: n != m && ManagerKnows(s', a, n, t) {
      var n :| n != m && ManagerKnows(s', a, n, t);
      assert ManagerKnows(s, a, n, t);
    } else if exists p :: ProbeKnows(s', a, p, t) {
      var p :| ProbeKnows(s', a, p, t);
      assert ProbeKnows(s, a, p, t);
    }
  }

  /** A manager that reads a blob the account has held learns nothing new. */
  lemma ReadingTeachesNothing(s: State, s': State, a: AccountId, m: ActorId, b: Blob)
    requires s'.past == s.past && s'.queue == s.queue && s'.flush == s.flush && s'.probes == s.probes
    requires s'.live == s.live
    requires m in s'.managers && s'.managers == s.managers[m := s'.managers[m]]
    requires s'.managers[m].account in s.past && b in s.past[s'.managers[m].account]
    requires s'.managers[m].cred == ParseCredential(b) && s'.managers[m].unqueued.None?
    ensures LearnsNothing(s, s', a)
  {
    forall t | Known(s', a, t) ensures Known(s, a, t) {
      if ManagerKnows(s', a, m, t) {
        assert Reads(s, a, t);
      } else if exists n :: ManagerKnows(s', a, n, t) {
        var n :| ManagerKnows(s', a, n, t);
        assert ManagerKnows(s, a, n, t);
      } else if exists p :: ProbeKnows(s', a, p, t) {
        var p :| ProbeKnows(s', a, p, t);
        assert ProbeKnows(s, a, p, t);
      }
    }
    forall x, t | MidRotation(s', a, x) && KnownBeside(s', a, x, t) ensures KnownBeside(s, a, x, t) {
      if ManagerKnows(s', a, m, t) {
        assert Reads(s, a, t);
      } else if exists n :: n != x && ManagerKnows(s', a, n, t) {
        var n :| n != x && ManagerKnows(s', a, n, t);
        assert ManagerKnows(s, a, n, t);
      } else if exists p :: ProbeKnows(s', a, p, t) {
        var p :| ProbeKnows(s', a, p, t);
        assert ProbeKnows(s, a, p, t);
      }
    }
  }

  /** A write to the row teaches readers only what the blob and the writer already held. */
  lemma PutTeaches(s: State, x: AccountId, blob: Blob, a: AccountId, t: string)
    ensures Reads(Put(s, x, blob), a, t) ==> Reads(s, a, t) || (x == a && ParseCredential(blob).refresh == t)
  {
  }

  lemma StoredTeaches(s: State, x: AccountId, c: Credential, a: AccountId, t: string, lifetime: nat)
    requires Sound(s, lifetime) && c.refresh != ""
    ensures Reads(Stored(s, x, c), a, t) ==> Reads(s, a, t) || (x == a && t == c.refresh)
  {
    if x in s.row {
      PutTeaches(s, x, StoreDecision(s.row[x], c), a, t);
      UpdateThenParse(s.row[x], c);
      if x == a && ParseCredential(s.row[x]).refresh == t {
        assert s.row[x] in s.past[x];
      }
    }
  }

  /** Where a fact about the next state comes from: the same actor in the last one. */
  lemma KnownFrom(s: State, s': State, a: AccountId, t: string)
    requires Known(s', a, t)
    requires Reads(s', a, t) ==> Known(s, a, t)
    requires WriterKnows(s', a, t) ==> Known(s, a, t)
    requires forall n :: ManagerKnows(s', a, n, t) ==> ManagerKnows(s, a, n, t)
    requires forall p :: ProbeKnows(s', a, p, t) ==> ProbeKnows(s, a, p, t)
    ensures Known(s, a, t)
  {
    if exists n :: ManagerKnows(s', a, n, t) {
      var n :| ManagerKnows(s', a, n, t);
      assert ManagerKnows(s, a, n, t);
    } else if exists p :: ProbeKnows(s', a, p, t) {
      var p :| ProbeKnows(s', a, p, t);
      assert ProbeKnows(s, a, p, t);
    }
  }

  lemma BesideFrom(s: State, s': State, a: AccountId, m: ActorId, t: string)
    requires KnownBeside(s', a, m, t)
    requires Reads(s', a, t) ==> KnownBeside(s, a, m, t)
    requires WriterKnows(s', a, t) ==> KnownBeside(s, a, m, t)
    requires forall n :: n != m && ManagerKnows(s', a, n, t) ==> ManagerKnows(s, a, n, t)
    requires forall p :: ProbeKnows(s', a, p, t) ==> ProbeKnows(s, a, p, t)
    ensures KnownBeside(s, a, m, t)
  {
    if exists n :: n != m && ManagerKnows(s', a, n, t) {
      var n :| n != m && ManagerKnows(s', a, n, t);
      assert ManagerKnows(s, a, n, t);
    } else if exists p :: ProbeKnows(s', a, p, t) {
      var p :| ProbeKnows(s', a, p, t);
      assert ProbeKnows(s, a, p, t);
    }
  }

  lemma EnqueueTeachesNothing(s: State, m: ActorId, a: AccountId, lifetime: nat)
    requires Sound(s, lifetime) && Enabled(s, Enqueue(m), lifetime)
    ensures LearnsNothing(s, Next(s, Enqueue(m), lifetime), a)
  {
    var s' := Next(s, Enqueue(m), lifetime);
    var c := s.managers[m].unqueued.value;
    assert ManagerSound(s, s.managers[m], lifetime);
    forall t | Known(s', a, t) ensures Known(s, a, t) {
      if s.managers[m].account == a && t == c.refresh {
        assert ManagerKnows(s, a, m, t);
      } else {
        KnownFrom(s, s', a, t);
      }
    }
    forall x, t | MidRotation(s', a, x) && KnownBeside(s', a, x, t) ensures KnownBeside(s, a, x, t) {
      if s.managers[m].account == a && t == c.refresh {
        assert x != m && ManagerKnows(s, a, m, t);
      } else {
        BesideFrom(s, s', a, x, t);
      }
    }
  }

  /** The row and the writer pass on what the writer held; the other actors are as they were. */
  lemma PassedOn(s: State, s': State, a: AccountId)
    requires s'.managers == s.managers && s'.probes == s.probes && s'.live == s.live
    requires forall t :: Reads(s', a, t) ==> Reads(s, a, t) || WriterKnows(s, a, t)
    requires forall t :: WriterKnows(s', a, t) ==> WriterKnows(s, a, t)
    ensures LearnsNothing(s, s', a)
  {
    forall t | Known(s', a, t) ensures Known(s, a, t) {
      KnownFrom(s, s', a, t);
    }
    forall x, t | MidRotation(s', a, x) && KnownBeside(s', a, x, t) ensures KnownBeside(s, a, x, t) {
      BesideFrom(s, s', a, x, t);
    }
  }

  lemma CommitTeachesNothing(s: State, x: AccountId, a: AccountId, lifetime: nat)
    requires Sound(s, lifetime) && Enabled(s, FlushCommit(x), lifetime)
    ensures LearnsNothing(s, Next(s, FlushCommit(x), lifetime), a)
  {
    hide LearnsNothing;
    var c := s.flush.todo[x];
    var s' := Next(s, FlushCommit(x), lifetime);
    assert s'.past == Stored(s, x, c).past;
    forall t ensures Reads(s', a, t) ==> Reads(s, a, t) || WriterKnows(s, a, t) {
      StoredTeaches(s, x, c, a, t, lifetime);
      assert Reads(s', a, t) ==> Reads(Stored(s, x, c), a, t);
    }
    PassedOn(s, s', a);
  }

  lemma FlushTeachesNothing(s: State, step: Step, a: AccountId, lifetime: nat)
    requires Enabled(s, step, lifetime) && (step.FlushBegin? || step.FlushSettle? || step.FlushEnd?)
    ensures LearnsNothing(s, Next(s, step, lifetime), a)
  {
    PassedOn(s, Next(s, step, lifetime), a);
  }

  /** `diagnose` storing what it obtained, or giving up, teaches nobody anything it did not know. */
  lemma ProbeEndTeachesNothing(s: State, step: Step, a: AccountId, lifetime: nat)
    requires Sound(s, lifetime) && Enabled(s, step, lifetime)
    requires step.ProbeCommit? || step.ProbeFails?
    ensures LearnsNothing(s, Next(s, step, lifetime), a)
  {
    var s' := Next(s, step, lifetime);
    var probe := s.probes[step.p];
    forall t
      ensures Reads(s', a, t) ==> Reads(s, a, t) || ProbeKnows(s, a, step.p, t)
    {
      if step.ProbeCommit? {
        StoredTeaches(s, probe.account, probe.cred, a, t, lifetime);
        assert Reads(s', a, t) ==> Reads(Stored(s, probe.account, probe.cred), a, t);
      }
    }
    forall t | Known(s', a, t) ensures Known(s, a, t) {
      KnownFrom(s, s', a, t);
    }
    forall x, t | MidRotation(s', a, x) && KnownBeside(s', a, x, t) ensures KnownBeside(s, a, x, t) {
      BesideFrom(s, s', a, x, t);
    }
  }

  /** What happens to one account's row teaches nobody about another's. */
  lemma OtherAccountTeachesNothing(s: State, step: Step, a: AccountId, lifetime: nat)
    requires Sound(s, lifetime) && Enabled(s, step, lifetime)
    requires (step.HandUp? || step.AddAccount? || step.RemoveAccount?) && (step.a != a || step.RemoveAccount?)
    ensures LearnsNothing(s, Next(s, step, lifetime), a)
  {
    var s' := Next(s, step, lifetime);
    forall t ensures Reads(s', a, t) ==> Reads(s, a, t) {
      if !step.RemoveAccount? {
        PutTeaches(s, step.a, step.blob, a, t);
      }
    }
    forall t | Known(s', a, t) ensures Known(s, a, t) {
      KnownFrom(s, s', a, t);
    }
    forall x, t | MidRotation(s', a, x) && KnownBeside(s', a, x, t) ensures KnownBeside(s, a, x, t) {
      BesideFrom(s, s', a, x, t);
    }
  }

  /** Another account's rotation is none of this one's business. */
  lemma OtherRotationTeachesNothing(s: State, step: Step, a: AccountId, lifetime: nat)
    requires Sound(s, lifetime) && Enabled(s, step, lifetime)
    requires (step.Refresh? && s.managers[step.m].account != a) || (step.ProbeRefresh? && step.a != a)
    ensures LearnsNothing(s, Next(s, step, lifetime), a)
  {
    var s' := Next(s, step, lifetime);
    forall t | Known(s', a, t) ensures Known(s, a, t) {
      KnownFrom(s, s', a, t);
    }
    forall x, t | MidRotation(s', a, x) && KnownBeside(s', a, x, t) ensures KnownBeside(s, a, x, t) {
      BesideFrom(s, s', a, x, t);
    }
  }

  /** Any step but a rotation of this account, or its login being handed up, leaves it chained. */
  lemma QuietStepTeachesNothing(s: State, step: Step, a: AccountId, lifetime: nat)
    requires Sound(s, lifetime) && Enabled(s, step, lifetime)
    requires !((step.HandUp? || step.AddAccount? || step.ProbeRefresh?) && step.a == a)
    requires !(step.Refresh? && s.managers[step.m].account == a)
    ensures LearnsNothing(s, Next(s, step, lifetime), a)
  {
    var s' := Next(s, step, lifetime);
    match step
    case OpenManager(m, x, read) => ReadingTeachesNothing(s, s', a, m, read);
    case Adopt(m, read) => ReadingTeachesNothing(s, s', a, m, read);
    case Refresh(m, got, at) => OtherRotationTeachesNothing(s, step, a, lifetime);
    case ProbeRefresh(p, x, read, got, at) => OtherRotationTeachesNothing(s, step, a, lifetime);
    case Enqueue(m) => EnqueueTeachesNothing(s, m, a, lifetime);
    case FlushBegin => FlushTeachesNothing(s, step, a, lifetime);
    case FlushCommit(x) => CommitTeachesNothing(s, x, a, lifetime);
    case FlushSettle => FlushTeachesNothing(s, step, a, lifetime);
    case FlushEnd => FlushTeachesNothing(s, step, a, lifetime);
    case HandUp(x, blob) => OtherAccountTeachesNothing(s, step, a, lifetime);
    case AddAccount(x, blob) => OtherAccountTeachesNothing(s, step, a, lifetime);
    case RemoveAccount(x) => OtherAccountTeachesNothing(s, step, a, lifetime);
    case ProbeCommit(p) => ProbeEndTeachesNothing(s, step, a, lifetime);
    case ProbeFails(p) => ProbeEndTeachesNothing(s, step, a, lifetime);
    case _ => SameKnowledge(s, s', a);
  }

  /** After a rotation every other token known for the account is spent. */
  lemma RotationLeavesOneLive(s: State, m: ActorId, got: Credential, at: Instant, lifetime: nat)
    requires Sound(s, lifetime) && Enabled(s, Refresh(m, got, at), lifetime)
    requires Chained(s, s.managers[m].account)
    ensures Chained(Next(s, Refresh(m, got, at), lifetime), s.managers[m].account)
  {
    var a := s.managers[m].account;
    var s' := Next(s, Refresh(m, got, at), lifetime);
    var spent := s.managers[m].cred.refresh;
    assert ManagerKnows(s, a, m, spent) && Known(s, a, spent);
    forall t | t in s'.live && KnownBeside(s', a, m, t)
      ensures false
    {
      BesideFrom(s, s', a, m, t);
      BesideIsKnown(s, a, m, t);
      KnownIsMinted(s, a, t, lifetime);
    }
    forall t | t in s'.live && Known(s', a, t)
      ensures t == got.refresh
    {
      if t != got.refresh {
        KnownButNotThrough(s', a, m, t);
      }
    }
    forall x, t | MidRotation(s', a, x) && t in s'.live
      ensures !KnownBeside(s', a, x, t)
    {
      if x != m && KnownBeside(s', a, x, t) {
        // Then x was already mid-rotation, and m knew a working token beside it.
        assert MidRotation(s, a, x) && ManagerKnows(s, a, m, spent) && KnownBeside(s, a, x, spent);
      }
    }
  }

  lemma KnownButNotThrough(s: State, a: AccountId, m: ActorId, t: string)
    requires Known(s, a, t) && !ManagerKnows(s, a, m, t)
    ensures KnownBeside(s, a, m, t)
  {
  }

  /** The same when it is `diagnose` that rotates: then no manager can be mid-rotation. */
  lemma ProbeLeavesOneLive(s: State, step: Step, lifetime: nat)
    requires Sound(s, lifetime) && step.ProbeRefresh? && Enabled(s, step, lifetime)
    requires Chained(s, step.a)
    ensures Chained(Next(s, step, lifetime), step.a)
  {
    var a := step.a;
    var s' := Next(s, step, lifetime);
    var spent := ParseCredential(step.read).refresh;
    assert Reads(s, a, spent) && Known(s, a, spent);
    forall t | t in s'.live && Known(s', a, t)
      ensures t == step.got.refresh
    {
      if t != step.got.refresh {
        KnownFrom(s, s', a, t);
        KnownIsMinted(s, a, t, lifetime);
      }
    }
    forall x
      ensures !MidRotation(s', a, x)
    {
      if MidRotation(s', a, x) {
        assert MidRotation(s, a, x) && KnownBeside(s, a, x, spent);
      }
    }
  }

  lemma AddLeavesOneLive(s: State, a: AccountId, blob: Blob, lifetime: nat)
    requires Sound(s, lifetime) && Enabled(s, AddAccount(a, blob), lifetime)
    ensures Chained(Next(s, AddAccount(a, blob), lifetime), a)
  {
    var s' := Next(s, AddAccount(a, blob), lifetime);
    forall m | m in s'.managers ensures s'.managers[m].account != a {
      assert ManagerSound(s, s.managers[m], lifetime);
    }
    forall t | Known(s', a, t) ensures t == ParseCredential(blob).refresh {
      PutTeaches(s, a, blob, a, t);
    }
  }

  /** Nobody hands up a new sign-in for an account that already has one. */
  predicate OneSignIn(step: Step, a: AccountId) {
    !(step.HandUp? && step.a == a)
  }

  lemma ChainedNext(s: State, step: Step, a: AccountId, lifetime: nat)
    requires Sound(s, lifetime) && Chained(s, a) && Enabled(s, step, lifetime) && OneSignIn(step, a)
    ensures Chained(Next(s, step, lifetime), a)
  {
    hide Chained, LearnsNothing, Next;
    if step.Refresh? && s.managers[step.m].account == a {
      RotationLeavesOneLive(s, step.m, step.got, step.at, lifetime);
    } else if step.ProbeRefresh? && step.a == a {
      ProbeLeavesOneLive(s, step, lifetime);
    } else if step.AddAccount? && step.a == a {
      AddLeavesOneLive(s, a, step.blob, lifetime);
    } else {
      QuietStepTeachesNothing(s, step, a, lifetime);
      SoundNext(s, step, lifetime);
      ChainedStays(s, Next(s, step, lifetime), a, lifetime);
    }
  }

  /** Within one sign-in a rotation can only begin when no other manager of the account is mid-rotation. */
  lemma OneSignInIsOrderly(s: State, step: Step, a: AccountId, lifetime: nat)
    requires Sound(s, lifetime) && Enabled(s, step, lifetime) && Chained(s, a)
    ensures Orderly(s, step, a)
  {
    if step.Refresh? && s.managers[step.m].account == a {
      var t := s.managers[step.m].cred.refresh;
      assert ManagerKnows(s, a, step.m, t);
      forall n | n != step.m ensures !MidRotation(s, a, n) {
        assert KnownBeside(s, a, n, t);
      }
    }
  }

  predicate OneSignInRun(steps: seq<Step>, a: AccountId) {
    forall i :: 0 <= i < |steps| ==> OneSignIn(steps[i], a)
  }

  /**
    The single-use token orders the account's managers by itself: while its login is not
    handed up again, no rotation of it is ever lost, whatever managers are forgotten and
    rebuilt, whatever they read, however they interleave and whatever other accounts do.
   */
  lemma {:induction false} OneSignInLosesNothing(s: State, steps: seq<Step>, a: AccountId, lifetime: nat)
    requires Safe(s, a, lifetime) && Chained(s, a)
    requires Possible(s, steps, lifetime) && OneSignInRun(steps, a)
    ensures Safe(Run(s, steps, lifetime), a, lifetime) && Chained(Run(s, steps, lifetime), a)
    decreases |steps|
  {
    hide Chained, Safe, Next, OneSignIn;
    if steps != [] {
      assert Sound(s, lifetime) by { SafeIsSound(s, a, lifetime); }
      OneSignInIsOrderly(s, steps[0], a, lifetime);
      SafeNext(s, steps[0], a, lifetime);
      ChainedNext(s, steps[0], a, lifetime);
      OneSignInLosesNothing(Next(s, steps[0], lifetime), steps[1..], a, lifetime);
    }
  }

  lemma SafeIsSound(s: State, a: AccountId, lifetime: nat)
    requires Safe(s, a, lifetime)
    ensures Sound(s, lifetime)
  {
  }

  lemma InitIsChained(s: State, a: AccountId)
    requires Init(s)
    ensures Chained(s, a)
  {
  }
}
