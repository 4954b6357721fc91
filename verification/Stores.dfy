/**
  The panel's store over one versioned row (panel/store.go, panelpg/panelpg.go): a
  write lands only when nothing was written since its read, and a lost race runs the
  whole decision again.
 */
module Stores {
  import opened Wrappers
  import opened Times
  import opened Panel
  import opened PanelInvariants

  /** The one row: the panel and the version a save is made against. */
  datatype Row = Row(version: nat, data: Data)

  const MAX_CAS_RETRIES := 8
  const MAX_TRIES := MAX_CAS_RETRIES + 1

  datatype Failure = Refused(refusal: Refusal) | BackendFailed | TooBusy

  class Backend {
    var row: Row
    ghost var initial: Data
    ghost var log: seq<Txn> // every transaction the row holds, in the order they landed

    /** The row is the committed transactions applied in order, one version each. */
    ghost predicate Valid()
      reads this
    {
      Legal(initial, log) && row == Row(|log|, After(initial, log))
    }

    constructor (d: Data)
      ensures Valid() && initial == d && log == [] && row == Row(0, d)
    {
      row, initial, log := Row(0, d), d, [];
    }

    method Load() returns (d: Data, version: nat)
      ensures (d, version) == (row.data, row.version)
    {
      d, version := row.data, row.version;
    }

    /** Writes only if the version has not moved since the read, and says whether it did. */
    method Save(d: Data, expected: nat, ghost t: Txn) returns (ok: bool)
      requires Valid()
      requires expected == row.version ==> Commit(row.data, t) == Ok(d)
      modifies this`row, this`log
      ensures Valid()
      ensures ok <==> expected == old(row.version)
      ensures ok ==> row == Row(expected + 1, d) && log == old(log) + [t]
      ensures !ok ==> row == old(row) && log == old(log)
    {
      if row.version != expected {
        return false;
      }
      LegalAppend(initial, log, t);
      row := Row(row.version + 1, d);
      log := log + [t];
      return true;
    }
  }

  lemma {:induction false} LegalAppend(d: Data, log: seq<Txn>, t: Txn)
    requires Legal(d, log)
    ensures Legal(d, log + [t]) <==> Commit(After(d, log), t).Ok?
    ensures Commit(After(d, log), t).Ok? ==> After(d, log + [t]) == Commit(After(d, log), t).value
    decreases |log|
  {
    hide Commit;
    if log == [] {
      assert [] + [t] == [t] && [t][1..] == [];
      assert Legal(d, [t]) <==> Commit(d, t).Ok? && Legal(Commit(d, t).value, []);
    } else {
      assert (log + [t])[1..] == log[1..] + [t];
      LegalAppend(Commit(d, log[0]).value, log[1..], t);
    }
  }

  lemma {:induction false} LegalConcat(d: Data, log: seq<Txn>, more: seq<Txn>)
    requires Legal(d, log) && Legal(After(d, log), more)
    ensures Legal(d, log + more) && After(d, log + more) == After(After(d, log), more)
    decreases |log|
  {
    hide Commit;
    if log == [] {
      assert log + more == more;
    } else {
      assert (log + more)[1..] == log[1..] + more;
      LegalConcat(Commit(d, log[0]).value, log[1..], more);
    }
  }

  // ------------------------------------------------------------ one call of Mutate

  /**
    What one try meets: the clock, whether the database answers, and what other
    stores write between this try's read and its save.
   */
  datatype Try = Try(swept: Instant, now: Instant, loadFails: bool, saveFails: bool, rivals: seq<Txn>)

  datatype Outcome = Outcome(result: Result<(), Failure>, landed: seq<Txn>, tries: nat)

  /** The transactions among `rivals` that commit, one after the other; refused ones write nothing. */
  function Accepted(d: Data, rivals: seq<Txn>): (r: seq<Txn>)
    ensures Legal(d, r)
    decreases |rivals|
  {
    if rivals == [] then []
    else
      var c := Commit(d, rivals[0]);
      if c.Ok? then [rivals[0]] + Accepted(c.value, rivals[1..]) else Accepted(d, rivals[1..])
  }

  /** What a call that begins its (k+1)th try on panel `d` comes to. */
  function Trying(d: Data, op: Op, tries: seq<Try>, k: nat): Outcome
    requires |tries| == MAX_TRIES && k < MAX_TRIES
    decreases MAX_TRIES - k
  {
    var t := tries[k];
    var own := Txn(op, t.swept, t.now);
    if t.loadFails then Outcome(Err(BackendFailed), [], k + 1)
    else if Commit(d, own).Err? then Outcome(Err(Refused(Commit(d, own).error)), [], k + 1)
    else
      var others := Accepted(d, t.rivals);
      if t.saveFails then Outcome(Err(BackendFailed), others, k + 1)
      else if others == [] then Outcome(Ok(()), [own], k + 1)
      else if k >= MAX_CAS_RETRIES then Outcome(Err(TooBusy), others, k + 1)
      else
        var rest := Trying(After(d, others), op, tries, k + 1);
        rest.(landed := others + rest.landed)
  }

  class Store {
    const backend: Backend

    constructor (b: Backend)
      ensures backend == b
    {
      backend := b;
    }

    /** Other stores' writes landing on the same row. */
    method Rivals(rivals: seq<Txn>)
      requires backend.Valid()
      modifies backend`row, backend`log
      ensures backend.Valid() && backend.log == old(backend.log) + Accepted(old(backend.row.data), rivals)
      ensures backend.row.data == After(old(backend.row.data), Accepted(old(backend.row.data), rivals))
    {
      hide Commit, Accepted, Legal, After;
      ghost var d0, log0 := backend.row.data, backend.log;
      NothingLanded(d0);
      assert rivals[0..] == rivals;
      ghost var done: seq<Txn> := [];
      var i := 0;
      while i < |rivals|
        invariant 0 <= i <= |rivals| && backend.Valid()
        invariant Legal(d0, done) && backend.log == log0 + done && backend.row.data == After(d0, done)
        invariant Accepted(d0, rivals) == done + Accepted(backend.row.data, rivals[i..])
      {
        var d, version := backend.Load();
        var r := Commit(d, rivals[i]);
        AcceptedStep(d, rivals[i..]);
        assert rivals[i..][1..] == rivals[i + 1..];
        if r.Ok? {
          LegalAppend(d0, done, rivals[i]);
          var _ := backend.Save(r.value, version, rivals[i]);
          done := done + [rivals[i]];
          assert Accepted(d0, rivals) == done + Accepted(backend.row.data, rivals[i + 1..]);
        }
        i := i + 1;
      }
      NoRivals(backend.row.data);
      assert rivals[i..] == [] && Accepted(d0, rivals) == done;
    }

    /** Runs a decision against the current panel and writes the result. */
    method Mutate(op: Op, tries: seq<Try>) returns (result: Result<(), Failure>)
      requires backend.Valid() && |tries| == MAX_TRIES
      modifies backend`row, backend`log
      ensures backend.Valid()
      ensures var o := Trying(old(backend.row.data), op, tries, 0);
              result == o.result && backend.log == old(backend.log) + o.landed
    {
      hide Commit, Accepted, Legal, After, Trying, Resumes;
      ghost var d0, log0 := backend.row.data, backend.log;
      ghost var landed: seq<Txn> := [];
      Begins(d0, op, tries);
      var attempt := 0;
      while true
        invariant 0 <= attempt <= MAX_CAS_RETRIES && backend.Valid()
        invariant backend.log == log0 + landed
        invariant Resumes(d0, landed, backend.row.data, op, tries, attempt)
        decreases MAX_CAS_RETRIES - attempt
      {
        var t := tries[attempt];
        var own := Txn(op, t.swept, t.now);
        OneTry(d0, landed, backend.row.data, op, tries, attempt);
        NothingLanded(backend.row.data);
        if t.loadFails {
          return Err(BackendFailed);
        }
        var d, version := backend.Load();
        var r := Commit(d, own);
        if r.Err? {
          return Err(Refused(r.error));
        }
        Rivals(t.rivals);
        ghost var others := Accepted(d, t.rivals);
        if t.saveFails {
          return Err(BackendFailed);
        }
        var ok := backend.Save(r.value, version, own);
        if ok {
          return Ok(());
        }
        landed := landed + others;
        if attempt >= MAX_CAS_RETRIES {
          return Err(TooBusy);
        }
        attempt := attempt + 1;
      }
    }
  }

  lemma NothingLanded(d: Data)
    ensures Legal(d, []) && After(d, []) == d
  {
  }

  lemma NoRivals(d: Data)
    ensures Accepted(d, []) == []
  {
  }

  /** What is left of a call is a call that begins with its k-th try, after what landed until then. */
  ghost predicate Resumes(d0: Data, landed: seq<Txn>, d: Data, op: Op, tries: seq<Try>, k: nat)
    requires |tries| == MAX_TRIES && k < MAX_TRIES
  {
    var whole, rest := Trying(d0, op, tries, 0), Trying(d, op, tries, k);
    whole.result == rest.result && whole.landed == landed + rest.landed
  }

  lemma Begins(d: Data, op: Op, tries: seq<Try>)
    requires |tries| == MAX_TRIES
    ensures Resumes(d, [], d, op, tries, 0)
  {
    hide Trying;
  }

  lemma OneTry(d0: Data, landed: seq<Txn>, d: Data, op: Op, tries: seq<Try>, k: nat)
    requires |tries| == MAX_TRIES && k < MAX_TRIES && Resumes(d0, landed, d, op, tries, k)
    ensures var t, whole := tries[k], Trying(d0, op, tries, 0);
            var own := Txn(op, t.swept, t.now);
            var others := Accepted(d, t.rivals);
            if t.loadFails then whole.result == Err(BackendFailed) && whole.landed == landed
            else if Commit(d, own).Err? then whole.result == Err(Refused(Commit(d, own).error)) && whole.landed == landed
            else if t.saveFails then whole.result == Err(BackendFailed) && whole.landed == landed + others
            else if others == [] then whole.result == Ok(()) && whole.landed == landed + [own]
            else if k >= MAX_CAS_RETRIES then whole.result == Err(TooBusy) && whole.landed == landed + others
            else Resumes(d0, landed + others, After(d, others), op, tries, k + 1)
  {
    hide Commit, Accepted, After, Legal, Trying;
    TryingStep(d, op, tries, k);
  }

  /** One unrolling of a call. */
  lemma TryingStep(d: Data, op: Op, tries: seq<Try>, k: nat)
    requires |tries| == MAX_TRIES && k < MAX_TRIES
    ensures var t := tries[k];
            var own := Txn(op, t.swept, t.now);
            var others := Accepted(d, t.rivals);
            Trying(d, op, tries, k) ==
            if t.loadFails then Outcome(Err(BackendFailed), [], k + 1)
            else if Commit(d, own).Err? then Outcome(Err(Refused(Commit(d, own).error)), [], k + 1)
            else if t.saveFails then Outcome(Err(BackendFailed), others, k + 1)
            else if others == [] then Outcome(Ok(()), [own], k + 1)
            else if k >= MAX_CAS_RETRIES then Outcome(Err(TooBusy), others, k + 1)
            else
              var rest := Trying(After(d, others), op, tries, k + 1);
              rest.(landed := others + rest.landed)
  {
    hide Commit, Accepted, After, Legal;
  }

  lemma AcceptedStep(d: Data, rivals: seq<Txn>)
    requires rivals != []
    ensures var c := Commit(d, rivals[0]);
            Accepted(d, rivals) ==
            if c.Ok? then [rivals[0]] + Accepted(c.value, rivals[1..]) else Accepted(d, rivals[1..])
  {
  }

  ghost predicate IsRival(t: Txn, tries: seq<Try>) {
    exists k :: 0 <= k < |tries| && t in tries[k].rivals
  }

  /** Every transaction that landed was another store's. */
  ghost predicate OnlyRivals(landed: seq<Txn>, tries: seq<Try>) {
    forall i :: 0 <= i < |landed| ==> IsRival(landed[i], tries)
  }

  lemma {:induction false} AcceptedAreRivals(d: Data, rivals: seq<Txn>, i: nat)
    requires i < |Accepted(d, rivals)|
    ensures Accepted(d, rivals)[i] in rivals
    decreases |rivals|
  {
    hide Commit;
    var c := Commit(d, rivals[0]);
    AcceptedStep(d, rivals);
    if c.Ok? {
      if i > 0 {
        AcceptedAreRivals(c.value, rivals[1..], i - 1);
      }
    } else {
      AcceptedAreRivals(d, rivals[1..], i);
    }
  }

  /** What the theorem below says of an outcome. */
  ghost predicate LandsOnceOrNotAtAll(o: Outcome, d: Data, op: Op, tries: seq<Try>, k: nat) {
    && k < o.tries <= MAX_TRIES == |tries|
    && Legal(d, o.landed)
    && (o.result.Err? ==> OnlyRivals(o.landed, tries))
    && (o.result.Ok? ==>
          var n := |o.landed| - 1;
          && n >= 0 && OnlyRivals(o.landed[..n], tries)
          && o.landed[n] == Txn(op, tries[o.tries - 1].swept, tries[o.tries - 1].now))
  }

  /**
    A call that fails writes nothing of its own; one that succeeds lands exactly one
    transaction, after everything other stores wrote and decided on the state they
    left; and every call stops within nine tries.
   */
  lemma {:induction false} MutateLandsOnceOrNotAtAll(d: Data, op: Op, tries: seq<Try>, k: nat)
    requires |tries| == MAX_TRIES && k < MAX_TRIES
    ensures LandsOnceOrNotAtAll(Trying(d, op, tries, k), d, op, tries, k)
    decreases MAX_TRIES - k
  {
    hide Commit, Trying, Accepted, Legal, After, OnlyRivals;
    var t := tries[k];
    var own := Txn(op, t.swept, t.now);
    var others := Accepted(d, t.rivals);
    TryingStep(d, op, tries, k);
    NothingLanded(d);
    RivalsAreRivals(d, tries, k);
    if t.loadFails || Commit(d, own).Err? || t.saveFails {
    } else if others == [] {
      LegalAppend(d, [], own);
      assert [] + [own] == [own] && [own][..0] == [];
    } else if k < MAX_CAS_RETRIES {
      var rest := Trying(After(d, others), op, tries, k + 1);
      MutateLandsOnceOrNotAtAll(After(d, others), op, tries, k + 1);
      LegalConcat(d, others, rest.landed);
      if rest.result.Ok? {
        var n := |rest.landed| - 1;
        assert (others + rest.landed)[..|others| + n] == others + rest.landed[..n];
        RivalsConcat(others, rest.landed[..n], tries);
      } else {
        RivalsConcat(others, rest.landed, tries);
      }
    }
  }

  lemma RivalsAreRivals(d: Data, tries: seq<Try>, k: nat)
    requires k < |tries|
    ensures OnlyRivals(Accepted(d, tries[k].rivals), tries) && OnlyRivals([], tries)
  {
    forall i | 0 <= i < |Accepted(d, tries[k].rivals)|
      ensures IsRival(Accepted(d, tries[k].rivals)[i], tries)
    {
      AcceptedAreRivals(d, tries[k].rivals, i);
    }
  }

  lemma RivalsConcat(a: seq<Txn>, b: seq<Txn>, tries: seq<Try>)
    requires OnlyRivals(a, tries) && OnlyRivals(b, tries)
    ensures OnlyRivals(a + b, tries)
  {
    hide IsRival;
    forall i | 0 <= i < |a + b| ensures IsRival((a + b)[i], tries) {
      assert (a + b)[i] == if i < |a| then a[i] else b[i - |a|];
    }
  }

  // ------------------------------------------------------------ how a call ends

  /** The panel the n-th try of a call meets, when the k-th met `d` and every one between was outrun. */
  function Met(d: Data, tries: seq<Try>, k: nat, n: nat): Data
    requires k <= n <= |tries|
    decreases n - k
  {
    if k == n then d else Met(After(d, Accepted(d, tries[k].rivals)), tries, k + 1, n)
  }

  /** The decision holds and the database answers, but another store wrote first. */
  predicate Outrun(d: Data, op: Op, t: Try) {
    !t.loadFails && !t.saveFails && Commit(d, Txn(op, t.swept, t.now)).Ok? && Accepted(d, t.rivals) != []
  }

  /**
    Only tries outrun by another store are followed by another; the last one's database and
    decision settle the call, so one that nothing outruns and nothing fails succeeds.
   */
  lemma {:induction false} ACallEndsAsItsLastTry(d: Data, op: Op, tries: seq<Try>, k: nat)
    requires |tries| == MAX_TRIES && k < MAX_TRIES
    ensures var o := Trying(d, op, tries, k);
            && k < o.tries <= 9
            && (forall j :: k <= j < o.tries - 1 ==> Outrun(Met(d, tries, k, j), op, tries[j]))
            && (o.result == Err(TooBusy) ==> o.tries == 9)
            && var t := tries[o.tries - 1];
               var met := Met(d, tries, k, o.tries - 1);
               var decision := Commit(met, Txn(op, t.swept, t.now));
               o.result == if t.loadFails then Err(BackendFailed)
                           else if decision.Err? then Err(Refused(decision.error))
                           else if t.saveFails then Err(BackendFailed)
                           else if Accepted(met, t.rivals) != [] then Err(TooBusy)
                           else Ok(())
    decreases MAX_TRIES - k
  {
    hide Commit, Trying, Accepted, Legal, After;
    TryingStep(d, op, tries, k);
    var others := Accepted(d, tries[k].rivals);
    if Outrun(d, op, tries[k]) && k < MAX_CAS_RETRIES {
      var d' := After(d, others);
      ACallEndsAsItsLastTry(d', op, tries, k + 1);
      forall j | k < j <= MAX_CAS_RETRIES ensures Met(d, tries, k, j) == Met(d', tries, k + 1, j) {
      }
    }
  }
}
