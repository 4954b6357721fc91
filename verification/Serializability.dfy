/**
  Any number of stores interleaving on one versioned row (panel/store.go,
  panelpg/panelpg.go): a read, with the decision taken on it, and a save are the
  only steps that touch the row, and they interleave freely.
 */
module Serializability {
  import opened Wrappers
  import opened Times
  import opened Panel
  import opened PanelInvariants
  import opened Stores

  type CallId = nat

  /** Where one call of `Mutate` stands; `tries` counts the reads it has begun. */
  datatype Call =
    | Waiting(op: Op, tries: nat)
    | Decided(txn: Txn, version: nat, data: Data, tries: nat)
    | Done(result: Result<(), Failure>, tries: nat)

  datatype State = State(
    row: Row,
    log: seq<Txn>,          // what the row holds, in commit order
    owners: seq<CallId>,    // which call committed each
    calls: map<CallId, Call>)

  datatype Step =
    | Begin(id: CallId, op: Op)
    | Read(id: CallId, swept: Instant, now: Instant)
    | Save(id: CallId)
    | Fail(id: CallId)      // the database answers a read or a save with an error

  predicate Enabled(s: State, step: Step) {
    match step
    case Begin(id, op) => id !in s.calls
    case Read(id, swept, now) => id in s.calls && s.calls[id].Waiting?
    case Save(id) => id in s.calls && s.calls[id].Decided?
    case Fail(id) => id in s.calls && !s.calls[id].Done?
  }

  /** The save's compare-and-swap. */
  function SaveRow(row: Row, d: Data, expected: nat): (Row, bool) {
    if row.version == expected then (Row(row.version + 1, d), true) else (row, false)
  }

  function Next(s: State, step: Step): State
    requires Enabled(s, step)
  {
    match step
    case Begin(id, op) => s.(calls := s.calls[id := Waiting(op, 0)])
    case Read(id, swept, now) =>
      var c := s.calls[id];
      var t := Txn(c.op, swept, now);
      var r := Commit(s.row.data, t);
      s.(calls := s.calls[id := if r.Ok? then Decided(t, s.row.version, r.value, c.tries + 1)
                                 else Done(Err(Refused(r.error)), c.tries + 1)])
    case Save(id) =>
      var c := s.calls[id];
      var (row, won) := SaveRow(s.row, c.data, c.version);
      if won then State(row, s.log + [c.txn], s.owners + [id], s.calls[id := Done(Ok(()), c.tries)])
      else if c.tries > MAX_CAS_RETRIES then s.(calls := s.calls[id := Done(Err(TooBusy), c.tries)])
      else s.(calls := s.calls[id := Waiting(c.txn.op, c.tries)])
    case Fail(id) => s.(calls := s.calls[id := Done(Err(BackendFailed), s.calls[id].tries)])
  }

  // ------------------------------------------------------------ what every state satisfies

  /** The row at version n is the first n committed transactions applied in commit order. */
  ghost predicate RowIsReplay(s: State, initial: Data) {
    Legal(initial, s.log) && s.row == Row(|s.log|, After(initial, s.log))
  }

  /** What a call has decided, it decided on the panel as it stood at the version it read. */
  predicate DecisionHolds(c: Call, log: seq<Txn>, initial: Data) {
    c.Decided? ==>
      && c.version <= |log| && Legal(initial, log[..c.version])
      && Commit(After(initial, log[..c.version]), c.txn) == Ok(c.data)
  }

  ghost predicate DecisionsHold(s: State, initial: Data) {
    forall id :: id in s.calls ==> DecisionHolds(s.calls[id], s.log, initial)
  }

  /** A call owns one transaction when it succeeded and none otherwise. */
  predicate OwnsRightly(s: State, id: CallId) {
    (id in s.owners <==> id in s.calls && s.calls[id] == Done(Ok(()), s.calls[id].tries))
  }

  ghost predicate Ownership(s: State) {
    && |s.owners| == |s.log|
    && (forall i, j :: 0 <= i < j < |s.owners| ==> s.owners[i] != s.owners[j])
    && (forall id :: OwnsRightly(s, id))
  }

  predicate TriesBounded(c: Call) {
    match c
    case Waiting(_, n) => n <= MAX_CAS_RETRIES
    case Decided(_, _, _, n) => 1 <= n <= MAX_TRIES
    case Done(_, n) => n <= MAX_TRIES
  }

  ghost predicate AllTriesBounded(s: State) {
    forall id :: id in s.calls ==> TriesBounded(s.calls[id])
  }

  ghost predicate Serial(s: State, initial: Data) {
    RowIsReplay(s, initial) && DecisionsHold(s, initial) && Ownership(s) && AllTriesBounded(s)
  }

  lemma ALaterLogKeepsDecisions(s: State, t: Txn, id: CallId, initial: Data)
    requires DecisionsHold(s, initial) && id in s.calls
    ensures DecisionHolds(s.calls[id], s.log + [t], initial)
  {
    assert DecisionHolds(s.calls[id], s.log, initial);
    if s.calls[id].Decided? {
      assert (s.log + [t])[..s.calls[id].version] == s.log[..s.calls[id].version];
    }
  }

  lemma ReadKeepsSerial(s: State, step: Step, initial: Data)
    requires Serial(s, initial) && step.Read? && Enabled(s, step)
    ensures Serial(Next(s, step), initial)
  {
    hide Commit, Legal, After;
    var s' := Next(s, step);
    assert TriesBounded(s.calls[step.id]);
    assert s.log[..|s.log|] == s.log;
    forall id | id in s'.calls ensures DecisionHolds(s'.calls[id], s'.log, initial) {
      if id != step.id {
        assert DecisionHolds(s.calls[id], s.log, initial);
      }
    }
    forall id ensures OwnsRightly(s', id) {
      assert OwnsRightly(s, id);
    }
  }

  lemma SaveKeepsSerial(s: State, id: CallId, initial: Data)
    requires Serial(s, initial) && Enabled(s, Save(id))
    ensures Serial(Next(s, Save(id)), initial)
  {
    hide Commit, Legal, After;
    var s' := Next(s, Save(id));
    var c := s.calls[id];
    assert TriesBounded(c) && DecisionHolds(c, s.log, initial);
    if s.row.version == c.version {
      assert s.log[..|s.log|] == s.log;
      LegalAppend(initial, s.log, c.txn);
      forall x | x in s'.calls ensures DecisionHolds(s'.calls[x], s'.log, initial) {
        if x != id {
          ALaterLogKeepsDecisions(s, c.txn, x, initial);
        }
      }
      assert OwnsRightly(s, id);
    } else {
      forall x | x in s'.calls ensures DecisionHolds(s'.calls[x], s'.log, initial) {
        if x != id {
          assert DecisionHolds(s.calls[x], s.log, initial);
        }
      }
    }
    forall x ensures OwnsRightly(s', x) {
      assert OwnsRightly(s, x);
    }
  }

  lemma NextIsSerial(s: State, step: Step, initial: Data)
    requires Serial(s, initial) && Enabled(s, step)
    ensures Serial(Next(s, step), initial)
  {
    hide Commit, Legal, After;
    var s' := Next(s, step);
    match step
    case Read(_, _, _) => ReadKeepsSerial(s, step, initial);
    case Save(id) => SaveKeepsSerial(s, id, initial);
    case Begin(_, _) =>
      assert OwnsRightly(s, step.id);
      QuietStepKeepsSerial(s, s', step.id, initial);
    case Fail(id) =>
      assert TriesBounded(s.calls[id]) && OwnsRightly(s, id);
      QuietStepKeepsSerial(s, s', id, initial);
  }

  /** A call that begins, or ends without writing, changes nothing else. */
  lemma QuietStepKeepsSerial(s: State, s': State, id: CallId, initial: Data)
    requires Serial(s, initial)
    requires id in s'.calls && s' == s.(calls := s.calls[id := s'.calls[id]])
    requires !s'.calls[id].Decided? && TriesBounded(s'.calls[id])
    requires id !in s.owners && s'.calls[id] != Done(Ok(()), s'.calls[id].tries)
    ensures Serial(s', initial)
  {
    hide Commit, Legal, After;
    forall x | x in s'.calls ensures DecisionHolds(s'.calls[x], s'.log, initial) {
      if x in s.calls {
        assert DecisionHolds(s.calls[x], s.log, initial);
      }
    }
    forall x ensures OwnsRightly(s', x) {
      assert OwnsRightly(s, x);
    }
  }

  function Run(s: State, steps: seq<Step>): State
    requires Possible(s, steps)
    decreases |steps|
  {
    if steps == [] then s else Run(Next(s, steps[0]), steps[1..])
  }

  predicate Possible(s: State, steps: seq<Step>)
    decreases |steps|
  {
    steps == [] || (Enabled(s, steps[0]) && Possible(Next(s, steps[0]), steps[1..]))
  }

  /**
    Serialisability: however any number of calls interleave, the row at version n is
    n committed transactions applied in commit order, each to exactly what its
    predecessors left; every committed one belongs to a call that succeeded, every
    call that succeeded has exactly one and a failed one none; and no call makes more
    than nine tries.
   */
  lemma {:induction false} EveryInterleavingIsSerial(s: State, steps: seq<Step>, initial: Data)
    requires Serial(s, initial) && Possible(s, steps)
    ensures Serial(Run(s, steps), initial)
    decreases |steps|
  {
    if steps == [] {
    } else {
      hide Serial, Next;
      NextIsSerial(s, steps[0], initial);
      EveryInterleavingIsSerial(Next(s, steps[0]), steps[1..], initial);
    }
  }

  lemma AFreshRowIsSerial(initial: Data)
    ensures Serial(State(Row(0, initial), [], [], map[]), initial)
  {
  }

  /**
    So what holds of every run of transactions holds of the row under every
    interleaving: the panel is consistent, and a join code has enrolled one machine at most.
   */
  lemma ThePanelIsConsistentUnderInterleaving(initial: Data, steps: seq<Step>, hash: string)
    requires var s := State(Row(0, initial), [], [], map[]); Possible(s, steps)
    requires Consistent(initial)
    ensures var end := Run(State(Row(0, initial), [], [], map[]), steps);
            && Legal(initial, end.log)
            && (AllFresh(initial, end.log) ==> Consistent(end.row.data))
            && ((forall i :: 0 <= i < |end.log| ==> end.log[i].now != ZERO_TIME) ==> Enrolments(end.log, hash) <= 1)
  {
    hide Commit, Consistent, After, Legal, Next, Run;
    var s := State(Row(0, initial), [], [], map[]);
    AFreshRowIsSerial(initial);
    EveryInterleavingIsSerial(s, steps, initial);
    var end := Run(s, steps);
    if AllFresh(initial, end.log) {
      RunsKeepConsistent(initial, end.log);
    }
    if forall i :: 0 <= i < |end.log| ==> end.log[i].now != ZERO_TIME {
      ACodeEnrolsOneMachine(initial, end.log, hash);
    }
  }
}
