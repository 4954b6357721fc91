/**
  No rotation is lost (cmd/clawdh-server/dbwriter.go): the newest credential the
  gateway obtained is always on its way to the writer's queue, in it, or stored.
 */
module KeptRotations {
  import opened Wrappers
  import opened Times
  import opened Credentials
  import opened Rotation

  /** The stored login is at least as new as `c`, to the millisecond it is stored at. */
  predicate StoredIsAsNew(s: State, a: AccountId, c: Credential) {
    a in s.row && Stamp(c.expires) <= ParseCredential(s.row[a]).expires
  }

  predicate QueuedIsAsNew(s: State, a: AccountId, c: Credential) {
    a in s.queue && c.expires <= s.queue[a].expires
  }

  ghost predicate OnItsWay(s: State, a: AccountId, c: Credential) {
    exists m :: m in s.managers && s.managers[m].account == a && s.managers[m].unqueued == Some(c)
  }

  /** A rotation is about to be queued, is queued, or is stored. */
  ghost predicate Covered(s: State, a: AccountId, c: Credential) {
    OnItsWay(s, a, c) || QueuedIsAsNew(s, a, c) || StoredIsAsNew(s, a, c)
  }

  /** The newest rotation of an account still on the panel is covered. */
  ghost predicate Kept(s: State, a: AccountId) {
    a in s.newest && a in s.row ==> Covered(s, a, s.newest[a])
  }

  /** Between a write and its removal from the queue, what was written is still stored. */
  ghost predicate CommitHolds(s: State) {
    s.flush.Writing? && s.flush.committed.Some? && s.flush.committed.value in s.flush.todo ==>
      var a := s.flush.committed.value;
      a in s.row && a in s.newest && s.newest[a].expires <= s.flush.todo[a].expires ==> StoredIsAsNew(s, a, s.newest[a])
  }

  predicate MidRotation(s: State, a: AccountId, m: ActorId) {
    m in s.managers && s.managers[m].account == a && s.managers[m].unqueued.Some?
  }

  /** No two managers of the account are between obtaining a rotation and queueing it, and nothing is newer than what one has. */
  ghost predicate OneInFlight(s: State, a: AccountId) {
    && (forall m, n :: MidRotation(s, a, m) && MidRotation(s, a, n) ==> m == n)
    && (forall m :: MidRotation(s, a, m) && a in s.newest ==> s.newest[a].expires <= s.managers[m].unqueued.value.expires)
  }

  /** The rule a caller can check before a refresh of the account: no other manager of it is mid-rotation. */
  ghost predicate Orderly(s: State, step: Step, a: AccountId) {
    step.Refresh? && step.m in s.managers && s.managers[step.m].account == a ==>
      forall n :: n != step.m ==> !MidRotation(s, a, n)
  }

  /** Writing a login never makes the stored one older. */
  lemma StoredKeeps(s: State, a: AccountId, c: Credential, x: AccountId, d: Credential)
    requires StoredIsAsNew(s, x, d)
    ensures StoredIsAsNew(Stored(s, a, c), x, d)
  {
    if a in s.row {
      StoreNeverGoesBack(s.row[a], c);
    }
  }

  lemma CommitHoldsNext(s: State, step: Step, lifetime: nat)
    requires Sound(s, lifetime) && CommitHolds(s) && Enabled(s, step, lifetime)
    ensures CommitHolds(Next(s, step, lifetime))
  {
    if step.FlushCommit? {
      CommitHoldsFlush(s, step, lifetime);
    } else if step.ProbeCommit? {
      CommitHoldsProbe(s, step, lifetime);
    }
  }

  lemma CommitHoldsFlush(s: State, step: Step, lifetime: nat)
    requires step.FlushCommit? && Sound(s, lifetime) && CommitHolds(s) && Enabled(s, step, lifetime)
    ensures CommitHolds(Next(s, step, lifetime))
  {
    var a := step.a;
    if a in s.row {
      StoreNeverGoesBack(s.row[a], s.flush.todo[a]);
      if a in s.newest && s.newest[a].expires <= s.flush.todo[a].expires {
        StampMonotone(s.newest[a].expires, s.flush.todo[a].expires);
      }
    }
  }

  lemma CommitHoldsProbe(s: State, step: Step, lifetime: nat)
    requires step.ProbeCommit? && CommitHolds(s) && Enabled(s, step, lifetime)
    ensures CommitHolds(Next(s, step, lifetime))
  {
    var p := step.p;
    if s.flush.Writing? && s.flush.committed.Some? {
      var a := s.flush.committed.value;
      if a in s.newest && StoredIsAsNew(s, a, s.newest[a]) {
        StoredKeeps(s, s.probes[p].account, s.probes[p].cred, a, s.newest[a]);
      }
    }
  }

  /** What is in flight, and whether it is the newest, is the managers' and the account's own business. */
  lemma OneInFlightStays(s: State, s': State, a: AccountId)
    requires OneInFlight(s, a)
    requires forall m :: MidRotation(s', a, m) ==> MidRotation(s, a, m) && s'.managers[m].unqueued == s.managers[m].unqueued
    requires a in s'.newest ==> a in s.newest && s'.newest[a] == s.newest[a]
    ensures OneInFlight(s', a)
  {
  }

  lemma OneInFlightRefresh(s: State, step: Step, a: AccountId, lifetime: nat)
    requires OneInFlight(s, a) && step.Refresh? && Enabled(s, step, lifetime) && Orderly(s, step, a)
    requires s.managers[step.m].account == a
    ensures OneInFlight(Next(s, step, lifetime), a)
  {
    forall n ensures MidRotation(Next(s, step, lifetime), a, n) ==> n == step.m {
      assert n != step.m ==> !MidRotation(s, a, n);
    }
  }

  lemma OneInFlightNext(s: State, step: Step, a: AccountId, lifetime: nat)
    requires OneInFlight(s, a) && Enabled(s, step, lifetime) && Orderly(s, step, a)
    ensures OneInFlight(Next(s, step, lifetime), a)
  {
    hide OneInFlight, Orderly;
    if step.Refresh? && s.managers[step.m].account == a {
      OneInFlightRefresh(s, step, a, lifetime);
    } else {
      OneInFlightStays(s, Next(s, step, lifetime), a);
    }
  }

  lemma StoredStays(s: State, step: Step, a: AccountId, c: Credential, lifetime: nat)
    requires Enabled(s, step, lifetime) && StoredIsAsNew(s, a, c)
    requires step != RemoveAccount(a) && !(step.HandUp? && step.a == a)
    ensures StoredIsAsNew(Next(s, step, lifetime), a, c) || (step.AddAccount? && step.a == a)
  {
    match step
    case FlushCommit(x) => StoredKeeps(s, x, s.flush.todo[x], a, c);
    case ProbeCommit(p) => StoredKeeps(s, s.probes[p].account, s.probes[p].cred, a, c);
    case _ =>
  }

  /** A rotation leaves the queue only for a newer one, or once what was written covers it. */
  lemma QueuedStays(s: State, step: Step, a: AccountId, c: Credential, lifetime: nat)
    requires Enabled(s, step, lifetime) && QueuedIsAsNew(s, a, c)
    requires step.Enqueue? && s.managers[step.m].account == a ==> c.expires <= s.managers[step.m].unqueued.value.expires
    ensures QueuedIsAsNew(Next(s, step, lifetime), a, c)
            || (step.FlushSettle? && s.flush.committed == Some(a) && a in s.flush.todo && c.expires <= s.flush.todo[a].expires)
  {
  }

  lemma OnItsWayStays(s: State, step: Step, a: AccountId, c: Credential, lifetime: nat)
    requires Enabled(s, step, lifetime) && OnItsWay(s, a, c)
    ensures OnItsWay(Next(s, step, lifetime), a, c) || QueuedIsAsNew(Next(s, step, lifetime), a, c)
  {
    var s' := Next(s, step, lifetime);
    var m :| m in s.managers && s.managers[m].account == a && s.managers[m].unqueued == Some(c);
    if step != Enqueue(m) {
      assert m in s'.managers && s'.managers[m].account == a && s'.managers[m].unqueued == Some(c);
    }
  }

  lemma NewestChanges(s: State, step: Step, a: AccountId, lifetime: nat)
    requires Enabled(s, step, lifetime) && a in Next(s, step, lifetime).newest
    requires !(step.Refresh? && s.managers[step.m].account == a)
    ensures a in s.newest && Next(s, step, lifetime).newest[a] == s.newest[a]
    ensures !(step.HandUp? && step.a == a)
  {
  }

  lemma RowAppears(s: State, step: Step, a: AccountId, lifetime: nat)
    requires Enabled(s, step, lifetime) && a in Next(s, step, lifetime).row
    ensures step != RemoveAccount(a)
    ensures a in s.row || (step.AddAccount? && step.a == a)
  {
  }

  /** An account that was never on the panel has nothing to lose. */
  predicate NewestIsOfAnAccount(s: State, a: AccountId) {
    a in s.newest ==> a in s.past
  }

  /** A rotation just obtained is on its way to the queue. */
  lemma RefreshIsOnItsWay(s: State, m: ActorId, got: Credential, at: Instant, lifetime: nat)
    requires Enabled(s, Refresh(m, got, at), lifetime)
    ensures var s' := Next(s, Refresh(m, got, at), lifetime);
            var a := s.managers[m].account;
            a in s'.newest && s'.newest[a] == got && OnItsWay(s', a, got)
  {
    var s' := Next(s, Refresh(m, got, at), lifetime);
    assert s'.managers[m].account == s.managers[m].account && s'.managers[m].unqueued == Some(got);
  }

  /** While it stays the newest, a rotation stays covered. */
  lemma KeptStays(s: State, step: Step, a: AccountId, c: Credential, lifetime: nat)
    requires CommitHolds(s) && OneInFlight(s, a) && Kept(s, a) && NewestIsOfAnAccount(s, a)
    requires Enabled(s, step, lifetime)
    requires a in s.newest && c == s.newest[a] && a in s.row
    requires step != RemoveAccount(a) && !(step.HandUp? && step.a == a) && !(step.AddAccount? && step.a == a)
    ensures Covered(Next(s, step, lifetime), a, c)
  {
    if StoredIsAsNew(s, a, c) {
      StoredStays(s, step, a, c, lifetime);
    } else if QueuedIsAsNew(s, a, c) {
      QueuedStays(s, step, a, c, lifetime);
      if step.FlushSettle? && StoredIsAsNew(s, a, c) {
        StoredStays(s, step, a, c, lifetime);
      }
    } else {
      OnItsWayStays(s, step, a, c, lifetime);
    }
  }

  lemma KeptUnderRefresh(s: State, step: Step, a: AccountId, lifetime: nat)
    requires Enabled(s, step, lifetime) && step.Refresh? && s.managers[step.m].account == a
    ensures Kept(Next(s, step, lifetime), a)
  {
    RefreshIsOnItsWay(s, step.m, step.got, step.at, lifetime);
  }

  lemma KeptOtherwise(s: State, step: Step, a: AccountId, lifetime: nat)
    requires CommitHolds(s) && OneInFlight(s, a) && Kept(s, a) && NewestIsOfAnAccount(s, a)
    requires Enabled(s, step, lifetime)
    requires !(step.Refresh? && s.managers[step.m].account == a)
    ensures Kept(Next(s, step, lifetime), a)
  {
    hide Next, Covered;
    var s' := Next(s, step, lifetime);
    if a in s'.newest && a in s'.row {
      NewestChanges(s, step, a, lifetime);
      RowAppears(s, step, a, lifetime);
      assert Covered(s', a, s.newest[a]) by {
        KeptStays(s, step, a, s.newest[a], lifetime);
      }
    }
  }

  /** Where nothing else of the account is in flight a step keeps its newest rotation. */
  lemma KeptNext(s: State, step: Step, a: AccountId, lifetime: nat)
    requires CommitHolds(s) && OneInFlight(s, a) && Kept(s, a) && NewestIsOfAnAccount(s, a)
    requires Enabled(s, step, lifetime)
    ensures Kept(Next(s, step, lifetime), a)
  {
    hide Next, Kept;
    if step.Refresh? && s.managers[step.m].account == a {
      KeptUnderRefresh(s, step, a, lifetime);
    } else {
      KeptOtherwise(s, step, a, lifetime);
    }
  }

  // ------------------------------------------------------------ over every run

  ghost predicate OrderlyRun(s: State, steps: seq<Step>, a: AccountId, lifetime: nat)
    requires Possible(s, steps, lifetime)
    decreases |steps|
  {
    steps == [] || (Orderly(s, steps[0], a) && OrderlyRun(Next(s, steps[0], lifetime), steps[1..], a, lifetime))
  }

  /** What a run that is orderly for the account keeps, whatever the others do. */
  ghost predicate Safe(s: State, a: AccountId, lifetime: nat) {
    Sound(s, lifetime) && CommitHolds(s) && OneInFlight(s, a) && NewestIsOfAnAccount(s, a) && Kept(s, a)
  }

  lemma SafeNext(s: State, step: Step, a: AccountId, lifetime: nat)
    requires Safe(s, a, lifetime) && Enabled(s, step, lifetime) && Orderly(s, step, a)
    ensures Safe(Next(s, step, lifetime), a, lifetime)
  {
    hide OneInFlight, Orderly, Kept, CommitHolds;
    SoundNext(s, step, lifetime);
    CommitHoldsNext(s, step, lifetime);
    OneInFlightNext(s, step, a, lifetime);
    assert step.Refresh? ==> ManagerSound(s, s.managers[step.m], lifetime);
    KeptNext(s, step, a, lifetime);
  }

  /**
    No rotation is lost: in every state of every run in which the account's managers
    rotate one at a time, the newest credential the gateway obtained for it, while it is
    on the panel, is on its way to the queue, in it, or stored.
   */
  lemma {:induction false} NoRotationIsLost(s: State, steps: seq<Step>, a: AccountId, lifetime: nat)
    requires Safe(s, a, lifetime) && Possible(s, steps, lifetime) && OrderlyRun(s, steps, a, lifetime)
    ensures Safe(Run(s, steps, lifetime), a, lifetime)
    decreases |steps|
  {
    hide Safe, Next, Orderly;
    if steps != [] {
      SafeNext(s, steps[0], a, lifetime);
      NoRotationIsLost(Next(s, steps[0], lifetime), steps[1..], a, lifetime);
    }
  }

  lemma InitIsSafe(s: State, a: AccountId, lifetime: nat)
    requires Init(s)
    ensures Safe(s, a, lifetime)
  {
  }

  // ------------------------------------------------------------ and exactly when one is

  /**
    Queueing a rotation loses the account's newest one exactly when the newest was
    only in the queue and what takes its place is older.
   */
  lemma EnqueueKeepsExactlyWhen(s: State, m: ActorId, lifetime: nat)
    requires Enabled(s, Enqueue(m), lifetime)
    requires var a := s.managers[m].account; a in s.newest && a in s.row && Kept(s, a)
    ensures var a, c := s.managers[m].account, s.managers[m].unqueued.value;
            var n := s.newest[a];
            Kept(Next(s, Enqueue(m), lifetime), a) <==>
            (n.expires <= c.expires || StoredIsAsNew(s, a, n)
             || exists x :: x != m && x in s.managers && s.managers[x].account == a && s.managers[x].unqueued == Some(n))
  {
    var s' := Next(s, Enqueue(m), lifetime);
    var a, c := s.managers[m].account, s.managers[m].unqueued.value;
    var n := s.newest[a];
    if x :| x != m && x in s.managers && s.managers[x].account == a && s.managers[x].unqueued == Some(n) {
      assert x in s'.managers && s'.managers[x].account == a && s'.managers[x].unqueued == Some(n);
    }
    if x :| x in s'.managers && s'.managers[x].account == a && s'.managers[x].unqueued == Some(n) {
      assert x != m && x in s.managers && s.managers[x] == s'.managers[x];
    }
  }

  const A_LIFETIME: nat := 8 * HOUR

  function LoginBlob(refresh: string): Blob {
    Document(map[OAUTH := Object(map[REFRESH := Text(refresh)])])
  }

  lemma LoginBlobReads(refresh: string)
    ensures ParseCredential(LoginBlob(refresh)) == Credential("", refresh, ZERO_TIME)
  {
    assert |ACCESS| == 11 && |REFRESH| == 12 && |EXPIRES| == 9;
  }

  // The race below, with the states it passes through.

  function A1(): Credential { Credential("a1", "t1", 2 + A_LIFETIME) }
  function B1(): Credential { Credential("b1", "u1", 4 + A_LIFETIME) }

  function Start(): State {
    State(0, {}, {}, map[], map[], map[], map[], map[], Idle, map[], map[])
  }

  function OneLogin(): State {
    State(1, {"t0"}, {"t0"}, map[0 := LoginBlob("t0")], map[0 := {LoginBlob("t0")}],
          map[], map[], map[], Idle, map[], map[])
  }

  function FirstManagerMidRotation(): State {
    State(2, {"t1"}, {"t0", "t1"}, map[0 := LoginBlob("t0")], map[0 := {LoginBlob("t0")}],
          map[0 := Manager(0, A1(), Some(A1()))], map[0 := 0], map[], Idle, map[], map[0 := A1()])
  }

  function HandedUpAgain(): State {
    State(3, {"t1", "u0"}, {"t0", "t1", "u0"}, map[0 := LoginBlob("u0")], map[0 := {LoginBlob("t0"), LoginBlob("u0")}],
          map[0 := Manager(0, A1(), Some(A1()))], map[], map[], Idle, map[], map[])
  }

  function BothMidRotation(): State {
    State(4, {"t1", "u1"}, {"t0", "t1", "u0", "u1"}, map[0 := LoginBlob("u0")], map[0 := {LoginBlob("t0"), LoginBlob("u0")}],
          map[0 := Manager(0, A1(), Some(A1())), 1 := Manager(0, B1(), Some(B1()))], map[0 := 1],
          map[], Idle, map[], map[0 := B1()])
  }

  function OlderOneQueued(): State {
    State(4, {"t1", "u1"}, {"t0", "t1", "u0", "u1"}, map[0 := LoginBlob("u0")], map[0 := {LoginBlob("t0"), LoginBlob("u0")}],
          map[0 := Manager(0, A1(), None), 1 := Manager(0, B1(), None)], map[0 := 1],
          map[0 := A1()], Idle, map[], map[0 := B1()])
  }

  predicate Leads(s: State, steps: seq<Step>, s': State) {
    Possible(s, steps, A_LIFETIME) && Run(s, steps, A_LIFETIME) == s'
  }

  lemma OneStep(s: State, step: Step, s': State)
    requires Enabled(s, step, A_LIFETIME) && Next(s, step, A_LIFETIME) == s'
    ensures Leads(s, [step], s')
  {
  }

  lemma {:induction false} Then(s: State, steps: seq<Step>, s': State, more: seq<Step>, s'': State)
    requires Leads(s, steps, s') && Leads(s', more, s'')
    ensures Leads(s, steps + more, s'')
    decreases |steps|
  {
    if steps == [] {
      assert steps + more == more;
    } else {
      assert (steps + more)[1..] == steps[1..] + more;
      Then(Next(s, steps[0], A_LIFETIME), steps[1..], s', more, s'');
    }
  }

  lemma ALoginIsAdded()
    ensures Leads(Start(), [SignIn("t0", 1)] + [AddAccount(0, LoginBlob("t0"))], OneLogin())
  {
    LoginBlobReads("t0");
    var s := Next(Start(), SignIn("t0", 1), A_LIFETIME);
    OneStep(Start(), SignIn("t0", 1), s);
    var added := Next(s, AddAccount(0, LoginBlob("t0")), A_LIFETIME);
    assert added.past[0] == {LoginBlob("t0")};
    assert added.past == OneLogin().past && added == OneLogin();
    OneStep(s, AddAccount(0, LoginBlob("t0")), OneLogin());
    Then(Start(), [SignIn("t0", 1)], s, [AddAccount(0, LoginBlob("t0"))], OneLogin());
  }

  lemma ItsManagerRotates()
    ensures Leads(OneLogin(), [OpenManager(0, 0, LoginBlob("t0"))] + [Refresh(0, A1(), 2)], FirstManagerMidRotation())
  {
    LoginBlobReads("t0");
    var s := Next(OneLogin(), OpenManager(0, 0, LoginBlob("t0")), A_LIFETIME);
    OneStep(OneLogin(), OpenManager(0, 0, LoginBlob("t0")), s);
    assert Next(s, Refresh(0, A1(), 2), A_LIFETIME) == FirstManagerMidRotation();
    OneStep(s, Refresh(0, A1(), 2), FirstManagerMidRotation());
    Then(OneLogin(), [OpenManager(0, 0, LoginBlob("t0"))], s, [Refresh(0, A1(), 2)], FirstManagerMidRotation());
  }

  lemma TheLoginIsHandedUpAgain()
    ensures Leads(FirstManagerMidRotation(), [Forget(0)] + [SignIn("u0", 3)] + [HandUp(0, LoginBlob("u0"))], HandedUpAgain())
  {
    LoginBlobReads("u0");
    var s := Next(FirstManagerMidRotation(), Forget(0), A_LIFETIME);
    OneStep(FirstManagerMidRotation(), Forget(0), s);
    var s1 := Next(s, SignIn("u0", 3), A_LIFETIME);
    OneStep(s, SignIn("u0", 3), s1);
    var handed := Next(s1, HandUp(0, LoginBlob("u0")), A_LIFETIME);
    assert handed.past[0] == {LoginBlob("t0"), LoginBlob("u0")};
    assert handed.past == HandedUpAgain().past && handed == HandedUpAgain();
    OneStep(s1, HandUp(0, LoginBlob("u0")), HandedUpAgain());
    Then(FirstManagerMidRotation(), [Forget(0)], s, [SignIn("u0", 3)], s1);
    Then(FirstManagerMidRotation(), [Forget(0)] + [SignIn("u0", 3)], s1, [HandUp(0, LoginBlob("u0"))], HandedUpAgain());
  }

  lemma TheNewManagerRotates()
    ensures Leads(HandedUpAgain(), [OpenManager(1, 0, LoginBlob("u0"))] + [Refresh(1, B1(), 4)], BothMidRotation())
  {
    LoginBlobReads("u0");
    var s := Next(HandedUpAgain(), OpenManager(1, 0, LoginBlob("u0")), A_LIFETIME);
    OneStep(HandedUpAgain(), OpenManager(1, 0, LoginBlob("u0")), s);
    assert Next(s, Refresh(1, B1(), 4), A_LIFETIME) == BothMidRotation();
    OneStep(s, Refresh(1, B1(), 4), BothMidRotation());
    Then(HandedUpAgain(), [OpenManager(1, 0, LoginBlob("u0"))], s, [Refresh(1, B1(), 4)], BothMidRotation());
  }

  lemma TheForgottenOneQueuesLast()
    ensures Leads(BothMidRotation(), [Enqueue(1)] + [Enqueue(0)], OlderOneQueued())
  {
    var s := Next(BothMidRotation(), Enqueue(1), A_LIFETIME);
    OneStep(BothMidRotation(), Enqueue(1), s);
    assert Next(s, Enqueue(0), A_LIFETIME) == OlderOneQueued();
    OneStep(s, Enqueue(0), OlderOneQueued());
    Then(BothMidRotation(), [Enqueue(1)], s, [Enqueue(0)], OlderOneQueued());
  }

  lemma TheNewerOneIsNowhere()
    ensures !Kept(OlderOneQueued(), 0)
  {
    LoginBlobReads("u0");
  }

  /**
    The rule is needed. A manager forgotten mid-rotation, a new sign-in handed up, and
    its manager's rotation queued first: the older rotation then replaces the newer in
    the queue, and the newest credential obtained is neither queued nor stored.
   */
  lemma AForgottenManagerCanLoseARotation()
    ensures Init(Start())
    ensures exists steps :: Possible(Start(), steps, A_LIFETIME) && !Kept(Run(Start(), steps, A_LIFETIME), 0)
  {
    hide Leads, OneLogin, FirstManagerMidRotation, HandedUpAgain, BothMidRotation, OlderOneQueued, Kept;
    ALoginIsAdded();
    ItsManagerRotates();
    TheLoginIsHandedUpAgain();
    TheNewManagerRotates();
    TheForgottenOneQueuesLast();
    var x1 := [SignIn("t0", 1)] + [AddAccount(0, LoginBlob("t0"))];
    var x2 := [OpenManager(0, 0, LoginBlob("t0"))] + [Refresh(0, A1(), 2)];
    var x3 := [Forget(0)] + [SignIn("u0", 3)] + [HandUp(0, LoginBlob("u0"))];
    var x4 := [OpenManager(1, 0, LoginBlob("u0"))] + [Refresh(1, B1(), 4)];
    var x5 := [Enqueue(1)] + [Enqueue(0)];
    Then(Start(), x1, OneLogin(), x2, FirstManagerMidRotation());
    Then(Start(), x1 + x2, FirstManagerMidRotation(), x3, HandedUpAgain());
    Then(Start(), x1 + x2 + x3, HandedUpAgain(), x4, BothMidRotation());
    Then(Start(), x1 + x2 + x3 + x4, BothMidRotation(), x5, OlderOneQueued());
    TheNewerOneIsNowhere();
    LeadsTo(Start(), x1 + x2 + x3 + x4 + x5, OlderOneQueued());
  }

  lemma LeadsTo(s: State, steps: seq<Step>, s': State)
    requires Leads(s, steps, s')
    ensures Possible(s, steps, A_LIFETIME) && Run(s, steps, A_LIFETIME) == s'
  {
  }
}
