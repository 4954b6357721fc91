/**
  One flush of the background writer (cmd/clawdh-server/dbwriter.go), while credentials
  and usage rows go on arriving: credentials first, then usage rows, stopping at the first
  write that fails.
 */
module Flushing {
  import opened Times
  import opened Credentials
  import opened WriteBehind

  /** What happens while one write is under way: its outcome, and what is queued meanwhile. */
  datatype Meanwhile<E> = Meanwhile(ok: bool, creds: seq<(nat, Credential)>, events: seq<E>)

  function Queued(creds: map<nat, Credential>, more: seq<(nat, Credential)>): map<nat, Credential> {
    if more == [] then creds else Queued(creds, more[..|more| - 1])[more[|more| - 1].0 := more[|more| - 1].1]
  }

  /** A rotation is in the panel row, to the millisecond, or its account has gone from it. */
  predicate IsStoredIn(row: map<nat, Blob>, a: nat, c: Credential) {
    a in row && c.refresh != "" ==> Stamp(c.expires) <= ParseCredential(row[a]).expires
  }

  /** What was last queued is still queued, or is what has been stored. */
  ghost predicate NoneForgotten(last: map<nat, Credential>, creds: map<nat, Credential>, row: map<nat, Blob>) {
    && creds.Keys <= last.Keys
    && forall a <- last :: (a in creds && creds[a] == last[a]) || (a !in creds && IsStoredIn(row, a, last[a]))
  }

  class Upstream<E(!new)> {
    const w: Writer<E>
    var row: map<nat, Blob>
    var stored: seq<Pending<E>>
    ghost var steps: State<E>              // the writer as the steps so far leave it
    ghost var last: map<nat, Credential>   // the newest credential queued for each account
    ghost var arrived: seq<(nat, Credential)> // every credential there has been, in order

    ghost predicate Valid()
      reads this, w
    {
      && Good(steps) && steps.q == w.Rows() && steps.stored == stored
      && NoneForgotten(last, w.creds, row)
    }

    constructor (row: map<nat, Blob>)
      ensures Valid() && fresh(w) && this.row == row && stored == [] && last == map[] && steps == Start<E>() && arrived == []
    {
      w := new Writer<E>();
      this.row, stored, last, arrived := row, [], map[], [];
      steps := Start<E>();
      new;
      RunIsGood(Start<E>(), []);
    }

    method Credential(a: nat, c: Credential)
      requires Valid()
      modifies this`last, this`arrived, w`creds
      ensures Valid() && last == old(last)[a := c] && w.creds == old(w.creds)[a := c]
      ensures arrived == old(arrived) + [(a, c)]
    {
      w.Credential(a, c);
      last := last[a := c];
      arrived := arrived + [(a, c)];
    }

    method Event(ev: E)
      requires Valid()
      modifies this`steps, w`events, w`seqNo, w`dropped
      ensures Valid() && steps == Next(old(steps), WriteBehind.Event(ev))
    {
      hide Good;
      NextIsGood(steps, WriteBehind.Event(ev));
      w.Event(ev);
      steps := Next(steps, WriteBehind.Event(ev));
    }

    /** What other goroutines queue while a write is under way. */
    method Arrivals(m: Meanwhile<E>)
      requires Valid()
      modifies this`steps, this`last, this`arrived, w
      ensures Valid() && last == Queued(old(last), m.creds) && w.creds == Queued(old(w.creds), m.creds)
      ensures arrived == old(arrived) + m.creds
      ensures steps.flush == old(steps.flush)
      ensures steps.metered == old(steps.metered) + m.events
    {
      hide Good, NoneForgotten;
      var i := 0;
      while i < |m.creds|
        invariant 0 <= i <= |m.creds| && Valid() && steps == old(steps)
        invariant last == Queued(old(last), m.creds[..i]) && w.creds == Queued(old(w.creds), m.creds[..i])
        invariant arrived == old(arrived) + m.creds[..i]
      {
        assert m.creds[..i + 1][..i] == m.creds[..i] && m.creds[..i + 1] == m.creds[..i] + [(m.creds[i].0, m.creds[i].1)];
        Credential(m.creds[i].0, m.creds[i].1);
        i := i + 1;
      }
      assert m.creds[..i] == m.creds;
      i := 0;
      while i < |m.events|
        invariant 0 <= i <= |m.events| && Valid()
        invariant last == Queued(old(last), m.creds) && w.creds == Queued(old(w.creds), m.creds) && arrived == old(arrived) + m.creds
        invariant steps.flush == old(steps.flush) && steps.metered == old(steps.metered) + m.events[..i]
      {
        assert m.events[..i + 1] == m.events[..i] + [m.events[i]];
        Event(m.events[i]);
        i := i + 1;
      }
      assert m.events[..i] == m.events;
    }

    /** The decision `storeCredential` commits: a removed account keeps nothing. */
    method StoreCredential(a: nat, c: Credential)
      modifies this`row
      ensures row == if a in old(row) then old(row)[a := StoreDecision(old(row)[a], c)] else old(row)
      ensures IsStoredIn(row, a, c)
      ensures forall b, d :: IsStoredIn(old(row), b, d) ==> IsStoredIn(row, b, d)
      ensures forall r: map<nat, Blob> :: OnlyForward(r, old(row)) ==> OnlyForward(r, row)
    {
      if a in row {
        StoreNeverGoesBack(row[a], c);
        row := row[a := StoreDecision(row[a], c)];
      }
    }

    /** Writes everything queued; true when it all was. */
    method Flush(meanwhile: nat -> Meanwhile<E>) returns (ok: bool)
      requires Valid() && steps.flush.Resting?
      modifies this, w
      ensures Valid() && steps.flush.Resting?
      ensures old(stored) <= stored <= old(stored) + old(w.events)
      ensures ok ==> stored == old(stored) + old(w.events)
      ensures ok ==> forall a <- old(w.creds) :: IsStoredIn(row, a, old(w.creds)[a])
      ensures old(arrived) <= arrived
      ensures ok ==> OnlyArrivals(w.creds, arrived[|old(arrived)|..])
      ensures ok && old(w.events) != [] ==> forall e <- w.events :: e.seqNo > old(w.seqNo)
      ensures OnlyForward(old(row), row)
    {
      hide Good, IsStoredIn, Next, OnlyForward, NoneForgotten;
      var batch, due, _ := w.TakeBatch();
      assert batch != [] ==> batch[|batch| - 1].seqNo == w.seqNo by { LastWaits(steps); }
      BeginsWithAll(steps);
      NextIsGood(steps, FlushBegins);
      steps := Next(steps, FlushBegins);
      assert OnlyForward(row, row) by { ForwardFromItself(row); }
      var n;
      n, ok := StoreCredentials(due, meanwhile);
      NextIsGood(steps, FlushEnds);
      if !ok {
        NothingWritten(steps);
        steps := Next(steps, FlushEnds);
        return;
      }
      var i, written := StoreRows(batch, n, meanwhile);
      EndTrims(steps);
      NextIsGood(steps, FlushEnds);
      if i == |batch| && batch != [] {
        RowsAreLater(steps);
      }
      steps := Next(steps, FlushEnds);
      w.DropWritten(written);
      ok := i == |batch|;
      assert batch[..|batch|] == batch;
    }

    /** The first loop: each credential stored is forgotten, unless a newer one has been queued meanwhile. */
    method StoreCredentials(due: map<nat, Credential>, meanwhile: nat -> Meanwhile<E>) returns (n: nat, ok: bool)
      requires Valid() && steps.flush.Storing? && steps.flush.done == 0
      requires due == w.creds
      modifies this`row, this`steps, this`last, this`arrived, w
      ensures Valid() && steps.flush == old(steps.flush) && OnlyForward(old(row), row)
      ensures old(arrived) <= arrived
      ensures ok ==> OnlyArrivals(w.creds, arrived[|old(arrived)|..])
      ensures ok ==> forall a <- due :: IsStoredIn(row, a, due[a])
    {
      hide Good, IsStoredIn, OnlyForward, NoneForgotten, DueOrArrived, OnlyArrivals;
      ForwardFromItself(row);
      n := 0;
      var todo := due.Keys;
      AllDue(due);
      assert arrived[|old(arrived)|..] == [];
      while todo != {}
        invariant Valid() && steps.flush == old(steps.flush) && OnlyForward(old(row), row)
        invariant todo <= due.Keys && forall a <- due :: a in todo || IsStoredIn(row, a, due[a])
        invariant old(arrived) <= arrived && DueOrArrived(w.creds, due, todo, arrived[|old(arrived)|..])
        decreases |todo|
      {
        var a :| a in todo;
        var m := meanwhile(n);
        n := n + 1;
        ghost var creds, more := w.creds, arrived[|old(arrived)|..];
        Arrivals(m);
        StillDueOrArrived(creds, due, todo, more, m.creds);
        assert arrived[|old(arrived)|..] == more + m.creds;
        if !m.ok {
          return n, false;
        }
        Stored(a, due[a]);
        SettledOrArrived(Queued(creds, m.creds), due, todo, a, more + m.creds);
        todo := todo - {a};
      }
      NoneDue(w.creds, due, arrived[|old(arrived)|..]);
      ok := true;
    }

    /** A credential that could be written, and what is forgotten of it. */
    method Stored(a: nat, c: Credential)
      requires Valid()
      modifies this`row, w`creds
      ensures Valid() && IsStoredIn(row, a, c) && OnlyForward(old(row), row)
      ensures forall b, d :: IsStoredIn(old(row), b, d) ==> IsStoredIn(row, b, d)
      ensures forall r: map<nat, Blob> :: OnlyForward(r, old(row)) ==> OnlyForward(r, row)
      ensures w.creds == if a in old(w.creds) && old(w.creds)[a] == c then old(w.creds) - {a} else old(w.creds)
    {
      hide Good, IsStoredIn, OnlyForward;
      ForwardFromItself(row);
      StoreCredential(a, c);
      w.Settle(a, c);
    }

    /** The second loop: rows are stored in order until one fails. */
    method StoreRows(batch: seq<Pending<E>>, first: nat, meanwhile: nat -> Meanwhile<E>) returns (i: nat, written: nat)
      requires Valid() && steps.flush == Storing(batch, 0, 0)
      modifies this`stored, this`steps, this`last, this`arrived, w
      ensures old(arrived) <= arrived
      ensures forall since: nat :: since <= |old(arrived)| && OnlyArrivals(old(w.creds), old(arrived)[since..]) ==> OnlyArrivals(w.creds, arrived[since..])
      ensures Valid() && i <= |batch| && steps.flush == Storing(batch, i, written)
      ensures stored == old(stored) + batch[..i]
    {
      hide Good, NoneForgotten;
      i, written := 0, 0;
      var n := first;
      while i < |batch|
        invariant 0 <= i <= |batch| && Valid() && steps.flush == Storing(batch, i, written)
        invariant stored == old(stored) + batch[..i]
        invariant old(arrived) <= arrived
        invariant forall since: nat :: since <= |old(arrived)| && OnlyArrivals(old(w.creds), old(arrived)[since..]) ==> OnlyArrivals(w.creds, arrived[since..])
      {
        var m := meanwhile(n);
        n := n + 1;
        ghost var creds, were := w.creds, arrived;
        Arrivals(m);
        forall since: nat | since <= |old(arrived)| && OnlyArrivals(creds, were[since..]) ensures OnlyArrivals(w.creds, arrived[since..]) {
          StillOnlyArrivals(creds, were[since..], m.creds);
          assert arrived[since..] == were[since..] + m.creds;
        }
        if !m.ok {
          break;
        }
        NextIsGood(steps, RowStored);
        steps := Next(steps, RowStored);
        stored := stored + [batch[i]];
        written := batch[i].seqNo;
        assert batch[..i + 1] == batch[..i] + [batch[i]];
        i := i + 1;
      }
    }
  }

  /** Everything queued is one of these. */
  predicate OnlyArrivals(creds: map<nat, Credential>, more: seq<(nat, Credential)>) {
    forall a <- creds :: (a, creds[a]) in more
  }

  /** Everything queued is one of these, or is still to be stored. */
  predicate DueOrArrived(creds: map<nat, Credential>, due: map<nat, Credential>, todo: set<nat>, more: seq<(nat, Credential)>) {
    forall a <- creds :: (a, creds[a]) in more || (a in todo && a in due && creds[a] == due[a])
  }

  lemma AllDue(due: map<nat, Credential>)
    ensures DueOrArrived(due, due, due.Keys, [])
  {
  }

  lemma NoneDue(creds: map<nat, Credential>, due: map<nat, Credential>, more: seq<(nat, Credential)>)
    requires DueOrArrived(creds, due, {}, more)
    ensures OnlyArrivals(creds, more)
  {
  }

  lemma SettledOrArrived(creds: map<nat, Credential>, due: map<nat, Credential>, todo: set<nat>, a: nat, more: seq<(nat, Credential)>)
    requires DueOrArrived(creds, due, todo, more) && a in due
    ensures DueOrArrived(if a in creds && creds[a] == due[a] then creds - {a} else creds, due, todo - {a}, more)
  {
  }

  /** The rows a flush that stored all it took leaves came after all of it. */
  lemma RowsAreLater<E(!new)>(s: State<E>)
    requires Good(s) && s.flush.Storing? && s.flush.done == |s.flush.batch| && |s.flush.batch| > 0
    ensures forall e <- Next(s, FlushEnds).q.events :: e.seqNo > s.flush.batch[|s.flush.batch| - 1].seqNo
  {
    var q := Next(s, FlushEnds).q;
    TrimTakesAFront(s.q.events, s.q.last, s.flush.written);
    forall e <- q.events ensures e.seqNo > s.flush.batch[|s.flush.batch| - 1].seqNo {
      var i :| 0 <= i < |q.events| && q.events[i] == e;
      assert IsWaiting(Next(s, FlushEnds), e.seqNo);
      AFullFlushEmptiesItsBatch(s, e.seqNo);
    }
  }

  lemma {:induction false} QueuedIsFrom(creds: map<nat, Credential>, more: seq<(nat, Credential)>)
    ensures var q := Queued(creds, more); forall a <- q :: (a, q[a]) in more || (a in creds && q[a] == creds[a])
    decreases |more|
  {
    if more != [] {
      QueuedIsFrom(creds, more[..|more| - 1]);
      assert more[|more| - 1] in more;
    }
  }

  lemma StillDueOrArrived(creds: map<nat, Credential>, due: map<nat, Credential>, todo: set<nat>, more: seq<(nat, Credential)>, now: seq<(nat, Credential)>)
    requires DueOrArrived(creds, due, todo, more)
    ensures DueOrArrived(Queued(creds, now), due, todo, more + now)
  {
    QueuedIsFrom(creds, now);
  }

  lemma StillOnlyArrivals(creds: map<nat, Credential>, more: seq<(nat, Credential)>, now: seq<(nat, Credential)>)
    requires OnlyArrivals(creds, more)
    ensures OnlyArrivals(Queued(creds, now), more + now)
  {
    QueuedIsFrom(creds, now);
  }

  lemma BeginsWithAll<E(!new)>(s: State<E>)
    requires s.flush.Resting?
    ensures Next(s, FlushBegins) == s.(q := s.q.(dropped := 0), flush := Storing(s.q.events, 0, 0))
  {
  }

  lemma LastWaits<E(!new)>(s: State<E>)
    requires Good(s)
    ensures s.q.events != [] ==> s.q.events[|s.q.events| - 1].seqNo == s.q.last
  {
  }

  lemma EndTrims<E(!new)>(s: State<E>)
    requires s.flush.Storing?
    ensures Next(s, FlushEnds) == s.(q := s.q.(events := Trim(s.q.events, s.flush.written)), flush := Resting)
  {
  }

  lemma ForwardFromItself(row: map<nat, Blob>)
    ensures OnlyForward(row, row)
  {
  }

  /** No stored login's expiry has gone back, and none is gone. */
  ghost predicate OnlyForward(before: map<nat, Blob>, after: map<nat, Blob>) {
    forall a <- before :: a in after && ParseCredential(after[a]).expires >= ParseCredential(before[a]).expires
  }

  /** A flush that stored no usage row takes none off the queue. */
  lemma NothingWritten<E(!new)>(s: State<E>)
    requires Good(s) && s.flush.Storing? && s.flush.done == 0
    ensures Next(s, FlushEnds) == s.(flush := Resting)
  {
    assert s.q.events != [] ==> s.q.events[0].seqNo >= 1;
  }
}
