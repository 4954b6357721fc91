/**
  The background writer's queue (cmd/clawdh-server/dbwriter.go): usage rows held
  while the database cannot be written, dropped oldest-first past a bound, and
  written in the background while more arrive; and the rotated credentials it keeps.
 */
module WriteBehind {
  import opened Times
  import opened Credentials

  const MAX_PENDING_EVENTS := 5000

  /** A usage row waiting, with the sequence it was queued under. */
  datatype Pending<E> = Pending(seqNo: nat, ev: E)

  datatype Queue<E> = Queue(events: seq<Pending<E>>, last: nat, dropped: nat)

  /** An arrival: past the bound the oldest row makes room. */
  function Arrive<E>(q: Queue<E>, ev: E): Queue<E> {
    var full := |q.events| >= MAX_PENDING_EVENTS;
    Queue((if full then q.events[1..] else q.events) + [Pending(q.last + 1, ev)], q.last + 1,
          if full then q.dropped + 1 else q.dropped)
  }

  /** What is left once every row up to a sequence has been stored. */
  function Trim<E>(events: seq<Pending<E>>, written: nat): (r: seq<Pending<E>>)
    ensures |r| <= |events|
  {
    if events == [] || events[0].seqNo > written then events else Trim(events[1..], written)
  }

  /** The writer itself; each method is one section under its lock. */
  class Writer<E> {
    var creds: map<nat, Credential>
    var events: seq<Pending<E>>
    var seqNo: nat
    var dropped: nat

    function Rows(): Queue<E>
      reads this
    {
      Queue(events, seqNo, dropped)
    }

    constructor ()
      ensures creds == map[] && Rows() == Queue([], 0, 0)
    {
      creds, events, seqNo, dropped := map[], [], 0, 0;
    }

    /** Queues a rotated credential; only the newest per account matters. */
    method Credential(accountId: nat, c: Credential)
      modifies this`creds
      ensures creds == old(creds)[accountId := c]
    {
      creds := creds[accountId := c];
    }

    method Event(ev: E)
      modifies this`events, this`seqNo, this`dropped
      ensures Rows() == Arrive(old(Rows()), ev)
    {
      if |events| >= MAX_PENDING_EVENTS {
        events := events[1..];
        dropped := dropped + 1;
      }
      seqNo := seqNo + 1;
      events := events + [Pending(seqNo, ev)];
    }

    /** What a flush takes with it; the drop count is reported and starts again. */
    method TakeBatch() returns (batch: seq<Pending<E>>, due: map<nat, Credential>, reported: nat)
      modifies this`dropped
      ensures batch == events && due == creds && reported == old(dropped) && dropped == 0
    {
      batch, due, reported := events, creds, dropped;
      dropped := 0;
    }

    /** Forgets a stored credential, unless a newer one has been queued meanwhile. */
    method Settle(accountId: nat, stored: Credential)
      modifies this`creds
      ensures creds == if accountId in old(creds) && old(creds)[accountId] == stored then old(creds) - {accountId} else old(creds)
    {
      if accountId in creds && creds[accountId] == stored {
        creds := creds - {accountId};
      }
    }

    /** Drops what was stored from the front of the queue, by sequence and not by position. */
    method DropWritten(written: nat)
      modifies this`events
      ensures events == Trim(old(events), written)
    {
      while |events| > 0 && events[0].seqNo <= written
        invariant Trim(events, written) == Trim(old(events), written)
      {
        events := events[1..];
      }
    }
  }

  /** How long to wait after n consecutive failures: two seconds, doubling, to a minute. */
  function BackoffFor(n: nat): int {
    if n <= 1 then 2 * SECOND
    else if 2 * BackoffFor(n - 1) > MINUTE then MINUTE else 2 * BackoffFor(n - 1)
  }

  method Backoff(n: int) returns (d: int)
    ensures d == BackoffFor(if n < 0 then 0 else n)
    ensures 2 * SECOND <= d <= MINUTE
  {
    d := 2 * SECOND;
    var i := 1;
    while i < n && d < MINUTE
      invariant 1 <= i && (i <= n || i == 1)
      invariant d >= 2 * SECOND
      invariant i < 1 || BackoffFor(i) == (if d > MINUTE then MINUTE else d)
      invariant d < MINUTE || (forall j :: i <= j ==> BackoffFor(j) == MINUTE)
    {
      d := 2 * d;
      i := i + 1;
      if d >= MINUTE {
        BackoffSettles(i);
      }
    }
    if d > MINUTE {
      d := MINUTE;
    }
  }

  lemma {:induction false} BackoffSettles(i: nat)
    requires BackoffFor(i) == MINUTE
    ensures forall j :: i <= j ==> BackoffFor(j) == MINUTE
  {
    forall j | i <= j ensures BackoffFor(j) == MINUTE {
      BackoffSettlesAt(i, j);
    }
  }

  lemma {:induction false} BackoffSettlesAt(i: nat, j: nat)
    requires BackoffFor(i) == MINUTE && i <= j
    ensures BackoffFor(j) == MINUTE
    decreases j
  {
    if i < j {
      BackoffSettlesAt(i, j - 1);
    }
  }

  // ------------------------------------------------------------ arrivals, overflow and flushes together

  /** A flush of usage rows: what it took, how many of those it has stored, and the last one's sequence. */
  datatype Flush<E> = Resting | Storing(batch: seq<Pending<E>>, done: nat, written: nat)

  datatype State<E> = State(
    q: Queue<E>,
    flush: Flush<E>,
    stored: seq<Pending<E>>,   // the usage rows the database holds, in the order they were inserted
    lost: set<nat>,            // the sequences overflow has ever dropped
    metered: seq<E>)           // every event there has been, the nth under sequence n

  datatype Step<E> =
    | Event(ev: E)
    | FlushBegins
    | RowStored                // the database took the next row of the batch
    | FlushEnds                // all written, or the first failure

  predicate Enabled<E>(s: State<E>, step: Step<E>) {
    match step
    case Event(_) => true
    case FlushBegins => s.flush.Resting?
    case RowStored => s.flush.Storing? && s.flush.done < |s.flush.batch|
    case FlushEnds => s.flush.Storing?
  }

  function Next<E>(s: State<E>, step: Step<E>): State<E>
    requires Enabled(s, step)
  {
    match step
    case Event(ev) =>
      s.(q := Arrive(s.q, ev), metered := s.metered + [ev],
         lost := if |s.q.events| >= MAX_PENDING_EVENTS then s.lost + {s.q.events[0].seqNo} else s.lost)
    case FlushBegins => s.(q := s.q.(dropped := 0), flush := Storing(s.q.events, 0, 0))
    case RowStored =>
      var row := s.flush.batch[s.flush.done];
      s.(stored := s.stored + [row], flush := s.flush.(done := s.flush.done + 1, written := row.seqNo))
    case FlushEnds => s.(q := s.q.(events := Trim(s.q.events, s.flush.written)), flush := Resting)
  }

  /** Rows whose sequences follow one another and end at `last`. */
  predicate Contiguous<E>(rows: seq<Pending<E>>, last: nat) {
    |rows| <= last && forall i :: 0 <= i < |rows| ==> rows[i].seqNo == last - |rows| + 1 + i
  }

  predicate Increasing<E>(rows: seq<Pending<E>>) {
    forall i, j :: 0 <= i < j < |rows| ==> rows[i].seqNo < rows[j].seqNo
  }

  function LastStored<E>(rows: seq<Pending<E>>): nat {
    if rows == [] then 0 else rows[|rows| - 1].seqNo
  }

  /** Each row is the event metered under its sequence. */
  predicate AsMetered<E(==)>(rows: seq<Pending<E>>, metered: seq<E>) {
    forall i :: 0 <= i < |rows| ==> 1 <= rows[i].seqNo <= |metered| && rows[i].ev == metered[rows[i].seqNo - 1]
  }

  ghost predicate IsStored<E>(s: State<E>, n: int) {
    exists i :: 0 <= i < |s.stored| && s.stored[i].seqNo == n
  }

  predicate InRange(count: nat, last: nat, n: int) {
    last - count < n <= last
  }

  predicate IsWaiting<E>(s: State<E>, n: int) {
    InRange(|s.q.events|, s.q.last, n)
  }

  /** A running flush has stored a front of what it took, which was the end of the queue then. */
  ghost predicate FlushStands<E>(s: State<E>) {
    match s.flush
    case Resting => !exists n :: IsWaiting(s, n) && n <= LastStored(s.stored)
    case Storing(batch, done, written) =>
      && done <= |batch| <= s.q.last
      && written == (if done == 0 then 0 else batch[done - 1].seqNo)
      && (batch != [] ==> Contiguous(batch, batch[|batch| - 1].seqNo) && batch[|batch| - 1].seqNo <= s.q.last)
      && AsMetered(batch, s.metered)
      // What is stored ends with what this flush has stored, and all of it precedes the rest.
      && done <= |s.stored| && s.stored[|s.stored| - done..] == batch[..done]
      && (done < |batch| ==> LastStored(s.stored) < batch[done].seqNo)
      // A waiting row is one of the batch or arrived after it.
      && (batch == [] ==> forall n :: IsWaiting(s, n) ==> LastStored(s.stored) < n)
      && (batch != [] ==> forall n :: IsWaiting(s, n) ==> batch[0].seqNo <= n)
  }

  ghost predicate Good<E(!new)>(s: State<E>) {
    && s.q.last == |s.metered|
    && |s.q.events| <= MAX_PENDING_EVENTS && Contiguous(s.q.events, s.q.last) && AsMetered(s.q.events, s.metered)
    && Increasing(s.stored) && AsMetered(s.stored, s.metered)
    && FlushStands(s)
    && (forall n :: 1 <= n <= s.q.last ==> IsStored(s, n) || IsWaiting(s, n) || n in s.lost)
  }

  /** Trimming takes a front of the queue: the rows up to the sequence written. */
  lemma {:induction false} TrimTakesAFront<E>(events: seq<Pending<E>>, last: nat, written: nat)
    requires Contiguous(events, last)
    ensures Contiguous(Trim(events, written), last)
    ensures Trim(events, written) == events[|events| - |Trim(events, written)|..]
    ensures forall n :: InRange(|events|, last, n) ==> (InRange(|Trim(events, written)|, last, n) <==> n > written)
    ensures forall n :: InRange(|Trim(events, written)|, last, n) ==> InRange(|events|, last, n)
    decreases |events|
  {
    if events == [] {
    } else if events[0].seqNo > written {
      assert events[0].seqNo == last - |events| + 1;
    } else {
      var rest := events[1..];
      assert Contiguous(rest, last);
      TrimTakesAFront(rest, last, written);
      var kept := Trim(rest, written);
      assert Trim(events, written) == kept;
      assert rest[|rest| - |kept|..] == events[|events| - |kept|..];
      assert events[0].seqNo == last - |events| + 1 <= written;
    }
  }

  lemma ArrivalKeepsGood<E(!new)>(s: State<E>, ev: E)
    requires Good(s)
    ensures Good(Next(s, Event(ev)))
  {
    var s' := Next(s, Event(ev));
    var full := |s.q.events| >= MAX_PENDING_EVENTS;
    forall n | 1 <= n <= s'.q.last ensures IsStored(s', n) || IsWaiting(s', n) || n in s'.lost {
      if IsStored(s, n) {
        assert IsStored(s', n);
      }
    }
    assert LastStored(s.stored) <= s.q.last;
    assert forall n :: IsWaiting(s', n) ==> IsWaiting(s, n) || n == s'.q.last;
  }

  lemma BeginningKeepsGood<E(!new)>(s: State<E>)
    requires Good(s) && Enabled(s, FlushBegins)
    ensures Good(Next(s, FlushBegins))
  {
    var s' := Next(s, FlushBegins);
    forall n | 1 <= n <= s'.q.last ensures IsStored(s', n) || IsWaiting(s', n) || n in s'.lost {
      if IsStored(s, n) {
        assert IsStored(s', n);
      }
    }
    assert s.q.events != [] ==> IsWaiting(s, s.q.events[0].seqNo);
    assert forall n :: IsWaiting(s', n) ==> IsWaiting(s, n);
  }

  lemma StoringAccounts<E(!new)>(s: State<E>, n: int)
    requires Enabled(s, RowStored)
    requires IsStored(s, n) || IsWaiting(s, n) || n in s.lost
    ensures var s' := Next(s, RowStored); IsStored(s', n) || IsWaiting(s', n) || n in s'.lost
  {
    var s' := Next(s, RowStored);
    if i :| 0 <= i < |s.stored| && s.stored[i].seqNo == n {
      assert s'.stored[i].seqNo == n;
    }
  }

  lemma StoringStands<E(!new)>(s: State<E>)
    requires Good(s) && Enabled(s, RowStored)
    ensures FlushStands(Next(s, RowStored))
  {
    var s' := Next(s, RowStored);
    var row := s.flush.batch[s.flush.done];
    assert s'.stored[|s'.stored| - s'.flush.done..] == s.stored[|s.stored| - s.flush.done..] + [row];
    assert s'.flush.batch[..s'.flush.done] == s.flush.batch[..s.flush.done] + [row];
    assert forall n :: IsWaiting(s', n) ==> IsWaiting(s, n);
  }

  lemma StoringKeepsGood<E(!new)>(s: State<E>)
    requires Good(s) && Enabled(s, RowStored)
    ensures Good(Next(s, RowStored))
  {
    var s' := Next(s, RowStored);
    StoringStands(s);
    hide FlushStands, IsStored;
    forall n | 1 <= n <= s'.q.last ensures IsStored(s', n) || IsWaiting(s', n) || n in s'.lost {
      StoringAccounts(s, n);
    }
    assert Increasing(s'.stored) && AsMetered(s'.stored, s'.metered) by {
      StoringKeepsOrder(s);
    }
  }

  lemma StoringKeepsOrder<E(!new)>(s: State<E>)
    requires Increasing(s.stored) && AsMetered(s.stored, s.metered) && FlushStands(s) && Enabled(s, RowStored)
    ensures Increasing(Next(s, RowStored).stored) && AsMetered(Next(s, RowStored).stored, s.metered)
  {
  }

  /** A written row that is still waiting is one this flush stored. */
  lemma WrittenIsStored<E(!new)>(s: State<E>, n: int)
    requires Good(s) && s.flush.Storing? && IsWaiting(s, n) && n <= s.flush.written
    ensures IsStored(s, n)
  {
    var batch, done := s.flush.batch, s.flush.done;
    var k := n - batch[0].seqNo;
    assert batch[..done][k] == batch[k];
    assert s.stored[|s.stored| - done..][k] == s.stored[|s.stored| - done + k];
  }

  /** While a flush runs, what it has not written is later than everything stored. */
  lemma StoredPrecedes<E(!new)>(s: State<E>, n: int)
    requires Good(s) && s.flush.Storing? && IsWaiting(s, n) && n > s.flush.written
    ensures LastStored(s.stored) < n
  {
    var batch, done := s.flush.batch, s.flush.done;
    if batch != [] && done > 0 {
      assert s.stored[|s.stored| - done..][done - 1] == s.stored[|s.stored| - 1];
      assert batch[..done][done - 1] == batch[done - 1];
    }
  }

  lemma EndingAccounts<E(!new)>(s: State<E>, n: int)
    requires Good(s) && Enabled(s, FlushEnds) && 1 <= n <= s.q.last
    ensures var s' := Next(s, FlushEnds); IsStored(s', n) || IsWaiting(s', n) || n in s'.lost
  {
    hide FlushStands, AsMetered, Increasing;
    TrimTakesAFront(s.q.events, s.q.last, s.flush.written);
    if IsWaiting(s, n) && n <= s.flush.written {
      WrittenIsStored(s, n);
    }
    if IsStored(s, n) {
      assert IsStored(Next(s, FlushEnds), n);
    }
  }

  lemma EndingStands<E(!new)>(s: State<E>)
    requires Good(s) && Enabled(s, FlushEnds)
    ensures FlushStands(Next(s, FlushEnds))
  {
    var s' := Next(s, FlushEnds);
    TrimTakesAFront(s.q.events, s.q.last, s.flush.written);
    forall n | IsWaiting(s', n) ensures LastStored(s'.stored) < n {
      assert IsWaiting(s, n) && n > s.flush.written;
      StoredPrecedes(s, n);
    }
  }

  lemma EndingKeepsGood<E(!new)>(s: State<E>)
    requires Good(s) && Enabled(s, FlushEnds)
    ensures Good(Next(s, FlushEnds))
  {
    var s' := Next(s, FlushEnds);
    TrimTakesAFront(s.q.events, s.q.last, s.flush.written);
    EndingStands(s);
    hide FlushStands, IsStored, IsWaiting;
    forall n | 1 <= n <= s'.q.last ensures IsStored(s', n) || IsWaiting(s', n) || n in s'.lost {
      EndingAccounts(s, n);
    }
  }

  lemma NextIsGood<E(!new)>(s: State<E>, step: Step<E>)
    requires Good(s) && Enabled(s, step)
    ensures Good(Next(s, step))
  {
    match step
    case Event(ev) => ArrivalKeepsGood(s, ev);
    case FlushBegins => BeginningKeepsGood(s);
    case RowStored => StoringKeepsGood(s);
    case FlushEnds => EndingKeepsGood(s);
  }

  function Run<E>(s: State<E>, steps: seq<Step<E>>): State<E>
    requires Possible(s, steps)
    decreases |steps|
  {
    if steps == [] then s else Run(Next(s, steps[0]), steps[1..])
  }

  predicate Possible<E>(s: State<E>, steps: seq<Step<E>>)
    decreases |steps|
  {
    steps == [] || (Enabled(s, steps[0]) && Possible(Next(s, steps[0]), steps[1..]))
  }

  lemma {:induction false} RunIsGood<E(!new)>(s: State<E>, steps: seq<Step<E>>)
    requires Good(s) && Possible(s, steps)
    ensures Good(Run(s, steps))
    decreases |steps|
  {
    if steps == [] {
    } else {
      hide Good, Next;
      NextIsGood(s, steps[0]);
      RunIsGood(Next(s, steps[0]), steps[1..]);
    }
  }

  function Start<E>(): State<E> {
    State(Queue([], 0, 0), Resting, [], {}, [])
  }

  /**
    However arrivals, overflow and half-failed flushes interleave: every metered event
    is stored at most once, in the order it was metered, as it was metered; one that
    is neither stored nor waiting was dropped by overflow; and the queue is a
    contiguous range of sequences, bounded.
   */
  lemma EventsAreStoredOnceInOrder<E(!new)>(steps: seq<Step<E>>)
    requires Possible(Start<E>(), steps)
    ensures var s := Run(Start<E>(), steps);
            && |s.q.events| <= MAX_PENDING_EVENTS && Contiguous(s.q.events, |s.metered|)
            && Increasing(s.stored) && AsMetered(s.stored, s.metered)
            && forall n :: 1 <= n <= |s.metered| ==> IsStored(s, n) || IsWaiting(s, n) || n in s.lost
  {
    RunIsGood(Start<E>(), steps);
  }

  /** A flush that stores all it took leaves in the queue only what arrived after it began. */
  lemma AFullFlushEmptiesItsBatch<E(!new)>(s: State<E>, n: int)
    requires Good(s) && s.flush.Storing? && s.flush.done == |s.flush.batch| && |s.flush.batch| > 0
    requires IsWaiting(Next(s, FlushEnds), n)
    ensures n > s.flush.batch[|s.flush.batch| - 1].seqNo
  {
    TrimTakesAFront(s.q.events, s.q.last, s.flush.written);
  }

  /**
    Stored and dropped can meet: a row can overflow while the flush that took it is
    still writing, be counted as dropped, and be stored all the same.
   */
  lemma ADroppedRowCanBeStored<E(!new)>(s: State<E>, ev: E)
    requires Good(s) && s.flush.Resting? && |s.q.events| == MAX_PENDING_EVENTS
    ensures var steps := [FlushBegins, Event(ev), RowStored];
            Possible(s, steps) && exists n :: n in Run(s, steps).lost && IsStored(Run(s, steps), n)
  {
    var steps := [FlushBegins, Event(ev), RowStored];
    var s1 := Next(s, FlushBegins);
    var s2 := Next(s1, Event(ev));
    var s3 := Next(s2, RowStored);
    assert steps[1..] == [Event(ev), RowStored] && steps[1..][1..] == [RowStored] && steps[1..][1..][1..] == [];
    assert Possible(s2, [RowStored]) && Run(s2, [RowStored]) == s3;
    assert Possible(s1, steps[1..]) && Run(s1, steps[1..]) == s3;
    assert Possible(s, steps) && Run(s, steps) == s3;
    var n := s.q.events[0].seqNo;
    assert n in s3.lost && s3.stored[|s.stored|].seqNo == n;
    assert IsStored(s3, n);
  }

  /** The waits after the first failures, in seconds: 2, 2, 4, 8, 16, 32, and a minute from the sixth on. */
  lemma TheWaitsAre(n: nat)
    ensures BackoffFor(0) == BackoffFor(1) == 2 * SECOND && BackoffFor(2) == 4 * SECOND && BackoffFor(3) == 8 * SECOND
    ensures BackoffFor(4) == 16 * SECOND && BackoffFor(5) == 32 * SECOND
    ensures n >= 6 ==> BackoffFor(n) == 60 * SECOND
  {
    assert BackoffFor(2) == 4 * SECOND;
    assert BackoffFor(3) == 8 * SECOND;
    assert BackoffFor(4) == 16 * SECOND;
    assert BackoffFor(5) == 32 * SECOND;
    assert BackoffFor(6) == MINUTE;
    BackoffSettles(6);
  }

  /** An arrival is always taken; past five thousand the oldest row makes room for it, and is counted. */
  lemma AnArrivalIsTaken<E(!new)>(q: Queue<E>, ev: E)
    ensures var q' := Arrive(q, ev);
            && q'.events != [] && q'.events[|q'.events| - 1] == Pending(q.last + 1, ev) && q'.last == q.last + 1
            && q'.events[..|q'.events| - 1] == (if |q.events| >= 5000 then q.events[1..] else q.events)
            && q'.dropped - q.dropped == (if |q.events| >= 5000 then 1 else 0)
  {
  }
}
