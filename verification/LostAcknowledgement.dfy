/**
  What `LiveLogin` asks is needed: a run in which the database reports that a write failed
  which committed. The flush ends with what it wrote still queued, the account having been
  rotated again, by `diagnose`, in the same millisecond. The next flush then stores the
  spent token over the one that works, because at the grain of the store neither is newer.
 */
module LostAcknowledgement {
  import opened Wrappers
  import opened Times
  import opened Credentials
  import opened Rotation
  import opened KeptRotations
  import opened SingleSignIn
  import opened LiveLogin

  /** The two rotations, one nanosecond apart. */
  function Probed(): Credential { Credential("c1", "v1", 3 + A_LIFETIME) }

  function FirstStored(): Blob { UpdateCredential(LoginBlob("t0"), A1()) }
  function ProbeStored(): Blob { UpdateCredential(FirstStored(), Probed()) }
  function SpentStored(): Blob { UpdateCredential(ProbeStored(), A1()) }

  lemma WhatIsStored()
    ensures ParseCredential(FirstStored()) == Credential("a1", "t1", A_LIFETIME)
    ensures ParseCredential(ProbeStored()) == Credential("c1", "v1", A_LIFETIME)
    ensures ParseCredential(SpentStored()) == Credential("a1", "t1", A_LIFETIME)
  {
    hide UpdateCredential;
    assert Stamp(2 + A_LIFETIME) == A_LIFETIME && Stamp(3 + A_LIFETIME) == A_LIFETIME;
    UpdateThenParse(LoginBlob("t0"), A1());
    UpdateThenParse(FirstStored(), Probed());
    UpdateThenParse(ProbeStored(), A1());
  }

  /** The first rotation is queued and written; the flush has not taken it off the queue. */
  function JustWritten(): State {
    State(2, {"t1"}, {"t0", "t1"}, map[0 := FirstStored()], map[0 := {LoginBlob("t0"), FirstStored()}],
          map[0 := Manager(0, A1(), None)], map[0 := 0], map[0 := A1()],
          Writing(map[0 := A1()], Some(0)), map[], map[0 := A1()])
  }

  /** `diagnose` has spent that token and stored the next, and the flush has ended. */
  function ProbeWritten(): State {
    State(3, {"v1"}, {"t0", "t1", "v1"}, map[0 := ProbeStored()],
          map[0 := {LoginBlob("t0"), FirstStored(), ProbeStored()}],
          map[0 := Manager(0, A1(), None)], map[0 := 0], map[0 := A1()],
          Idle, map[], map[0 := A1()])
  }

  /** The next flush has written what was still queued. */
  function SpentWritten(): State {
    State(3, {"v1"}, {"t0", "t1", "v1"}, map[0 := SpentStored()],
          map[0 := {LoginBlob("t0"), FirstStored(), ProbeStored(), SpentStored()}],
          map[0 := Manager(0, A1(), None)], map[0 := 0], map[],
          Idle, map[], map[0 := A1()])
  }

  lemma ItIsWritten()
    ensures Leads(FirstManagerMidRotation(), [Enqueue(0)] + [FlushBegin] + [FlushCommit(0)], JustWritten())
  {
    LoginBlobReads("t0");
    var s := Next(FirstManagerMidRotation(), Enqueue(0), A_LIFETIME);
    OneStep(FirstManagerMidRotation(), Enqueue(0), s);
    var s1 := Next(s, FlushBegin, A_LIFETIME);
    OneStep(s, FlushBegin, s1);
    hide UpdateCredential, ParseCredential;
    var s2 := Next(s1, FlushCommit(0), A_LIFETIME);
    assert s1.row[0] == LoginBlob("t0") && s1.flush.todo[0] == A1();
    assert s2.row == map[0 := FirstStored()];
    assert s2.past[0] == {LoginBlob("t0"), FirstStored()};
    assert s2.past == JustWritten().past && s2 == JustWritten();
    OneStep(s1, FlushCommit(0), JustWritten());
    Then(FirstManagerMidRotation(), [Enqueue(0)], s, [FlushBegin], s1);
    Then(FirstManagerMidRotation(), [Enqueue(0)] + [FlushBegin], s1, [FlushCommit(0)], JustWritten());
  }

  lemma TheProbeRotates()
    ensures Leads(JustWritten(), [ProbeRefresh(0, 0, FirstStored(), Probed(), 3)] + [ProbeCommit(0)] + [FlushEnd], ProbeWritten())
  {
    WhatIsStored();
    hide UpdateCredential, ParseCredential;
    var step := ProbeRefresh(0, 0, FirstStored(), Probed(), 3);
    assert Enabled(JustWritten(), step, A_LIFETIME);
    var s := Next(JustWritten(), step, A_LIFETIME);
    OneStep(JustWritten(), step, s);
    var s1 := Next(s, ProbeCommit(0), A_LIFETIME);
    assert s1.row == map[0 := ProbeStored()];
    assert s1.past[0] == {LoginBlob("t0"), FirstStored(), ProbeStored()};
    OneStep(s, ProbeCommit(0), s1);
    var s2 := Next(s1, FlushEnd, A_LIFETIME);
    assert s2.past == ProbeWritten().past && s2.probes == map[] && s2.live == {"v1"} && s2 == ProbeWritten();
    OneStep(s1, FlushEnd, ProbeWritten());
    Then(JustWritten(), [step], s, [ProbeCommit(0)], s1);
    Then(JustWritten(), [step] + [ProbeCommit(0)], s1, [FlushEnd], ProbeWritten());
  }

  function SpentCommitted(): State {
    SpentWritten().(queue := map[0 := A1()], flush := Writing(map[0 := A1()], Some(0)))
  }

  lemma TheSpentOneIsCommitted()
    ensures Leads(ProbeWritten(), [FlushBegin] + [FlushCommit(0)], SpentCommitted())
  {
    WhatIsStored();
    hide UpdateCredential, ParseCredential;
    var s := Next(ProbeWritten(), FlushBegin, A_LIFETIME);
    OneStep(ProbeWritten(), FlushBegin, s);
    var s1 := Next(s, FlushCommit(0), A_LIFETIME);
    assert s1.row == map[0 := SpentStored()];
    assert s1.past[0] == {LoginBlob("t0"), FirstStored(), ProbeStored(), SpentStored()};
    assert s1.past == SpentCommitted().past && s1 == SpentCommitted();
    OneStep(s, FlushCommit(0), s1);
    Then(ProbeWritten(), [FlushBegin], s, [FlushCommit(0)], s1);
  }

  lemma TheFlushEnds()
    ensures Leads(SpentCommitted(), [FlushSettle] + [FlushEnd], SpentWritten())
  {
    hide SpentStored, ProbeStored, FirstStored;
    var s2 := Next(SpentCommitted(), FlushSettle, A_LIFETIME);
    OneStep(SpentCommitted(), FlushSettle, s2);
    var s3 := Next(s2, FlushEnd, A_LIFETIME);
    assert s3.queue == map[] && s3 == SpentWritten();
    OneStep(s2, FlushEnd, SpentWritten());
    Then(SpentCommitted(), [FlushSettle], s2, [FlushEnd], SpentWritten());
  }

  /** The working token is known, and is not the one in the row. */
  lemma TheWorkingTokenIsLost()
    ensures 0 in SpentWritten().row && Drained(SpentWritten(), 0)
    ensures Known(SpentWritten(), 0, "v1") && "v1" in SpentWritten().live
    ensures ParseCredential(SpentWritten().row[0]).refresh == "t1"
  {
    WhatIsStored();
    hide UpdateCredential, ParseCredential;
    assert ProbeStored() in SpentWritten().past[0];
    assert Reads(SpentWritten(), 0, "v1");
  }

  predicate StepsAllowed(steps: seq<Step>) {
    forall i :: 0 <= i < |steps| ==> !steps[i].HandUp? && !steps[i].ProbeFails?
  }

  /** A run of one sign-in, with `diagnose` storing what it obtains, that ends drained with the working token not in the row. */
  lemma AnUnacknowledgedWriteCanLoseTheLogin()
    ensures Init(Start())
    ensures exists steps :: Possible(Start(), steps, A_LIFETIME) && StepsAllowed(steps) &&
              var end := Run(Start(), steps, A_LIFETIME);
              Drained(end, 0) && !TheLiveOneIsStored(end, 0)
  {
    hide Leads, OneLogin, FirstManagerMidRotation, JustWritten, ProbeWritten, SpentCommitted, SpentWritten, Drained,
      TheLiveOneIsStored, ParseCredential, Possible, Run, FirstStored, Probed, LoginBlob, A1, StepsAllowed;
    ALoginIsAdded();
    ItsManagerRotates();
    ItIsWritten();
    TheProbeRotates();
    TheSpentOneIsCommitted();
    TheFlushEnds();
    TheWorkingTokenIsLost();
    var x1 := [SignIn("t0", 1)] + [AddAccount(0, LoginBlob("t0"))];
    var x2 := [OpenManager(0, 0, LoginBlob("t0"))] + [Refresh(0, A1(), 2)];
    var x3 := [Enqueue(0)] + [FlushBegin] + [FlushCommit(0)];
    var x4 := [ProbeRefresh(0, 0, FirstStored(), Probed(), 3)] + [ProbeCommit(0)] + [FlushEnd];
    var x5 := [FlushBegin] + [FlushCommit(0)];
    var x6 := [FlushSettle] + [FlushEnd];
    Then(Start(), x1, OneLogin(), x2, FirstManagerMidRotation());
    Then(Start(), x1 + x2, FirstManagerMidRotation(), x3, JustWritten());
    Then(Start(), x1 + x2 + x3, JustWritten(), x4, ProbeWritten());
    Then(Start(), x1 + x2 + x3 + x4, ProbeWritten(), x5, SpentCommitted());
    Then(Start(), x1 + x2 + x3 + x4 + x5, SpentCommitted(), x6, SpentWritten());
    AllowedJoin(x1, x2);
    AllowedJoin(x1 + x2, x3);
    AllowedJoin(x1 + x2 + x3, x4);
    AllowedJoin(x1 + x2 + x3 + x4, x5);
    AllowedJoin(x1 + x2 + x3 + x4 + x5, x6);
    EachIsAllowed(FirstStored());
    TheRunEndsThere(x1 + x2 + x3 + x4 + x5 + x6);
  }

  lemma AllowedJoin(a: seq<Step>, b: seq<Step>)
    ensures StepsAllowed(a) && StepsAllowed(b) ==> StepsAllowed(a + b)
  {
  }

  lemma EachIsAllowed(read: Blob)
    ensures StepsAllowed([SignIn("t0", 1)] + [AddAccount(0, LoginBlob("t0"))])
    ensures StepsAllowed([OpenManager(0, 0, LoginBlob("t0"))] + [Refresh(0, A1(), 2)])
    ensures StepsAllowed([Enqueue(0)] + [FlushBegin] + [FlushCommit(0)])
    ensures StepsAllowed([ProbeRefresh(0, 0, read, Probed(), 3)] + [ProbeCommit(0)] + [FlushEnd])
    ensures StepsAllowed([FlushBegin] + [FlushCommit(0)]) && StepsAllowed([FlushSettle] + [FlushEnd])
  {
  }

  lemma TheRunEndsThere(steps: seq<Step>)
    requires Leads(Start(), steps, SpentWritten())
    ensures Possible(Start(), steps, A_LIFETIME)
    ensures var end := Run(Start(), steps, A_LIFETIME);
            Drained(end, 0) && !TheLiveOneIsStored(end, 0)
  {
    hide Leads, SpentWritten, Drained, Known, ParseCredential, Possible, Run;
    LeadsTo(Start(), steps, SpentWritten());
    TheWorkingTokenIsLost();
    var end := Run(Start(), steps, A_LIFETIME);
    assert Known(end, 0, "v1") && "v1" in end.live && ParseCredential(end.row[0]).refresh != "v1";
  }
}
