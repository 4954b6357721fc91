/**
  Metered usage (panelpg/usage.go, cmd/clawdh-server/dbwriter.go): every response as
  an event, and hourly counters kept beside the events, which must answer alike.
 */
module UsageStore {
  import opened Times
  import opened Wrappers
  import opened Calendar
  import opened Meter

  /** One response's usage as it is stored, priced and labelled. */
  datatype Event = Event(at: Instant, person: string, account: string, model: string, totals: Totals)

  /** What a group of events adds up to. */
  datatype Totals = Totals(weighted: real, input: int, output: int, cacheCreation: int, cacheRead: int)
  {
    function Plus(o: Totals): Totals {
      Totals(weighted + o.weighted, input + o.input, output + o.output, cacheCreation + o.cacheCreation, cacheRead + o.cacheRead)
    }
  }

  const NOTHING := Totals(0.0, 0, 0, 0, 0)

  datatype Kind = OfPerson | OfAccount

  /** A counter's primary key. */
  datatype Key = Key(kind: Kind, id: string, hour: Instant, model: string)

  datatype Counter = Counter(key: Key, totals: Totals)

  /** The row with a key, or the number of rows. */
  function Find(rows: seq<Counter>, key: Key): (i: nat)
    ensures i <= |rows|
    ensures i < |rows| ==> rows[i].key == key
    ensures forall j :: 0 <= j < i ==> rows[j].key != key
  {
    if rows == [] || rows[0].key == key then 0 else 1 + Find(rows[1..], key)
  }

  /** Insert, or on conflict add in. */
  function Upsert(rows: seq<Counter>, key: Key, t: Totals): seq<Counter> {
    var i := Find(rows, key);
    if i < |rows| then rows[i := Counter(key, rows[i].totals.Plus(t))] else rows + [Counter(key, t)]
  }

  function KeyOf(ev: Event, kind: Kind): Key {
    Key(kind, if kind == OfPerson then ev.person else ev.account, FloorTo(ev.at, HOUR), ev.model)
  }

  /** The counters after one more event: the person's and the account's, each if it is named. */
  function Counted(rows: seq<Counter>, ev: Event): seq<Counter> {
    var withPerson := if ev.person == "" then rows else Upsert(rows, KeyOf(ev, OfPerson), ev.totals);
    if ev.account == "" then withPerson else Upsert(withPerson, KeyOf(ev, OfAccount), ev.totals)
  }

  /** The counters after a whole history. */
  function CountersOf(events: seq<Event>): seq<Counter> {
    if events == [] then [] else Counted(CountersOf(events[..|events| - 1]), events[|events| - 1])
  }

  /** The two tables, written in one transaction. */
  class Database {
    var events: seq<Event>
    var counters: seq<Counter>

    ghost predicate Valid()
      reads this
    {
      counters == CountersOf(events)
    }

    constructor ()
      ensures Valid() && events == []
    {
      events, counters := [], [];
    }

    method UpsertCounter(key: Key, t: Totals)
      modifies this`counters
      ensures counters == Upsert(old(counters), key, t)
    {
      var i := 0;
      while i < |counters|
        invariant 0 <= i <= |counters| && forall j :: 0 <= j < i ==> counters[j].key != key
      {
        if counters[i].key == key {
          assert Find(counters, key) == i;
          counters := counters[i := Counter(key, counters[i].totals.Plus(t))];
          return;
        }
        i := i + 1;
      }
      assert Find(counters, key) == |counters|;
      counters := counters + [Counter(key, t)];
    }

    /** Stores one event and rolls it into the hourly counters of its person and account. */
    method RecordUsage(ev: Event)
      requires Valid()
      modifies this
      ensures Valid() && events == old(events) + [ev]
    {
      assert (events + [ev])[..|events|] == events;
      events := events + [ev];
      var subjects := [OfPerson, OfAccount];
      ghost var before := counters;
      var i := 0;
      while i < |subjects|
        invariant 0 <= i <= 2
        invariant events == old(events) + [ev]
        invariant counters == (if i == 0 then before
                               else if i == 1 then (if ev.person == "" then before else Upsert(before, KeyOf(ev, OfPerson), ev.totals))
                               else Counted(before, ev))
      {
        var key := KeyOf(ev, subjects[i]);
        if key.id != "" {
          UpsertCounter(key, ev.totals);
        }
        i := i + 1;
      }
    }
  }

  // ------------------------------------------------------------ the two queries

  /** A series query: one person's usage, or everyone's for an empty person, from an instant on, cut to a unit. */
  datatype Query = Query(person: string, unit: Unit, from: Instant)

  predicate EventMatches(q: Query, ev: Event, t: Instant, model: string) {
    (q.person == "" || ev.person == q.person) && q.from <= ev.at && Truncate(ev.at, q.unit) == t && ev.model == model
  }

  predicate CounterMatches(q: Query, c: Counter, t: Instant, model: string) {
    c.key.kind == OfPerson && (q.person == "" || c.key.id == q.person)
    && q.from <= c.key.hour && Truncate(c.key.hour, q.unit) == t && c.key.model == model
  }

  /** The raw query's sums for one bucket and model, and whether it has a row for them. */
  function RawSum(events: seq<Event>, q: Query, t: Instant, model: string): Totals {
    if events == [] then NOTHING
    else
      var rest := RawSum(events[..|events| - 1], q, t, model);
      var ev := events[|events| - 1];
      if EventMatches(q, ev, t, model) then rest.Plus(ev.totals) else rest
  }

  predicate RawHas(events: seq<Event>, q: Query, t: Instant, model: string) {
    exists ev <- events :: EventMatches(q, ev, t, model)
  }

  function CounterSum(rows: seq<Counter>, q: Query, t: Instant, model: string): Totals {
    if rows == [] then NOTHING
    else
      var rest := CounterSum(rows[..|rows| - 1], q, t, model);
      var c := rows[|rows| - 1];
      if CounterMatches(q, c, t, model) then rest.Plus(c.totals) else rest
  }

  predicate CounterHas(rows: seq<Counter>, q: Query, t: Instant, model: string) {
    exists c <- rows :: CounterMatches(q, c, t, model)
  }

  /** A row of a series query: a bucket, a model and their sums. */
  datatype Row = Row(t: Instant, model: string, totals: Totals)

  /** Rows ordered by bucket, one for each bucket and model. */
  predicate Grouped(rows: seq<Row>) {
    && (forall i, j :: 0 <= i < j < |rows| ==> rows[i].t <= rows[j].t)
    && (forall i, j :: 0 <= i < j < |rows| ==> !(rows[i].t == rows[j].t && rows[i].model == rows[j].model))
  }

  ghost predicate AnswersRaw(rows: seq<Row>, events: seq<Event>, q: Query) {
    && Grouped(rows)
    && (forall r <- rows :: RawHas(events, q, r.t, r.model) && r.totals == RawSum(events, q, r.t, r.model))
    && (forall t, m :: RawHas(events, q, t, m) ==> exists r <- rows :: r.t == t && r.model == m)
  }

  ghost predicate AnswersRollUp(rows: seq<Row>, counters: seq<Counter>, q: Query) {
    && Grouped(rows)
    && (forall r <- rows :: CounterHas(counters, q, r.t, r.model) && r.totals == CounterSum(counters, q, r.t, r.model))
    && (forall t, m :: CounterHas(counters, q, t, m) ==> exists r <- rows :: r.t == t && r.model == m)
  }

  // ------------------------------------------------------------ they agree

  lemma PlusIsCommutative(a: Totals, b: Totals, c: Totals)
    ensures a.Plus(b).Plus(c) == a.Plus(c).Plus(b) && a.Plus(b.Plus(c)) == a.Plus(b).Plus(c)
    ensures NOTHING.Plus(a) == a
  {
  }

  /** Adding into one row adds to the sum when the row is in the query. */
  lemma {:induction false} SumAfterUpdate(rows: seq<Counter>, i: nat, d: Totals, q: Query, t: Instant, model: string)
    requires i < |rows|
    ensures var rows' := rows[i := Counter(rows[i].key, rows[i].totals.Plus(d))];
            CounterSum(rows', q, t, model) ==
            if CounterMatches(q, rows[i], t, model) then CounterSum(rows, q, t, model).Plus(d) else CounterSum(rows, q, t, model)
    decreases |rows|
  {
    var n := |rows| - 1;
    var rows' := rows[i := Counter(rows[i].key, rows[i].totals.Plus(d))];
    var front := rows[..n];
    if i == n {
      assert rows'[..n] == front;
      PlusIsCommutative(CounterSum(front, q, t, model), rows[n].totals, d);
    } else {
      assert rows'[..n] == front[i := Counter(front[i].key, front[i].totals.Plus(d))];
      SumAfterUpdate(front, i, d, q, t, model);
      PlusIsCommutative(CounterSum(front, q, t, model), rows[n].totals, d);
    }
  }

  /** One upsert adds to the query's sum, and gives it a row, exactly when its key is in the query. */
  lemma UpsertCounts(rows: seq<Counter>, key: Key, d: Totals, q: Query, t: Instant, model: string)
    ensures var rows' := Upsert(rows, key, d);
            var hit := CounterMatches(q, Counter(key, d), t, model);
            && CounterSum(rows', q, t, model) == (if hit then CounterSum(rows, q, t, model).Plus(d) else CounterSum(rows, q, t, model))
            && (CounterHas(rows', q, t, model) <==> hit || CounterHas(rows, q, t, model))
  {
    var i := Find(rows, key);
    var rows' := Upsert(rows, key, d);
    if i < |rows| {
      SumAfterUpdate(rows, i, d, q, t, model);
      if c :| c in rows && CounterMatches(q, c, t, model) {
        var k :| 0 <= k < |rows| && rows[k] == c;
        assert rows'[k] in rows' && CounterMatches(q, rows'[k], t, model);
      }
      if c :| c in rows' && CounterMatches(q, c, t, model) {
        var k :| 0 <= k < |rows'| && rows'[k] == c;
        assert rows[k] in rows;
      }
      assert rows'[i] in rows' && rows[i] in rows;
    } else {
      assert rows'[..|rows|] == rows;
      assert rows'[|rows|] in rows';
    }
  }

  /** The key an event is counted under for its person is in a query exactly when the event is. */
  lemma KeyMatchesAsItsEvent(ev: Event, q: Query, t: Instant, model: string)
    requires HourOrCoarser(q.unit) && OnTheHour(q.from)
    ensures CounterMatches(q, Counter(KeyOf(ev, OfPerson), ev.totals), t, model) <==> EventMatches(q, ev, t, model)
    ensures !CounterMatches(q, Counter(KeyOf(ev, OfAccount), ev.totals), t, model)
  {
    CutOfTheHour(ev.at, q.unit);
    HoursFollowTheStart(ev.at, q.from);
  }

  /** What the events without a person come to. */
  function UnnamedSum(events: seq<Event>, q: Query, t: Instant, model: string): Totals {
    if events == [] then NOTHING
    else
      var rest := UnnamedSum(events[..|events| - 1], q, t, model);
      var ev := events[|events| - 1];
      if ev.person == "" && EventMatches(q, ev, t, model) then rest.Plus(ev.totals) else rest
  }

  predicate UnnamedHas(events: seq<Event>, q: Query, t: Instant, model: string) {
    exists ev <- events :: ev.person == "" && EventMatches(q, ev, t, model)
  }

  /**
    For every query at an hour-or-coarser grain with a start on the hour, after any
    history, in every bucket and model: the counters and the events differ by exactly the
    events that have no person.
   */
  lemma {:induction false} CountersMissExactlyTheUnnamed(events: seq<Event>, q: Query, t: Instant, model: string)
    requires HourOrCoarser(q.unit) && OnTheHour(q.from)
    ensures RawSum(events, q, t, model) == CounterSum(CountersOf(events), q, t, model).Plus(UnnamedSum(events, q, t, model))
    ensures RawHas(events, q, t, model) <==> CounterHas(CountersOf(events), q, t, model) || UnnamedHas(events, q, t, model)
    decreases |events|
  {
    hide EventMatches, Counted, CounterSum, CounterHas, RawHas, UnnamedHas, RawSum, UnnamedSum, CountersOf, Totals.Plus;
    if events == [] {
      NothingIsCounted(q, t, model);
    } else {
      var front, ev := events[..|events| - 1], events[|events| - 1];
      CountersMissExactlyTheUnnamed(front, q, t, model);
      OneEventCounts(CountersOf(front), ev, q, t, model);
      OneEventSums(front, ev, q, t, model);
      OneEventShows(front, ev, q, t, model);
      assert events == front + [ev];
      PlusIsCommutative(CounterSum(CountersOf(front), q, t, model), UnnamedSum(front, q, t, model), ev.totals);
    }
  }

  lemma NothingIsCounted(q: Query, t: Instant, model: string)
    ensures RawSum([], q, t, model) == CounterSum(CountersOf([]), q, t, model).Plus(UnnamedSum([], q, t, model))
    ensures !RawHas([], q, t, model) && !CounterHas(CountersOf([]), q, t, model) && !UnnamedHas([], q, t, model)
  {
  }

  lemma OneEventSums(events: seq<Event>, ev: Event, q: Query, t: Instant, model: string)
    ensures RawSum(events + [ev], q, t, model) ==
            if EventMatches(q, ev, t, model) then RawSum(events, q, t, model).Plus(ev.totals) else RawSum(events, q, t, model)
    ensures UnnamedSum(events + [ev], q, t, model) ==
            if ev.person == "" && EventMatches(q, ev, t, model) then UnnamedSum(events, q, t, model).Plus(ev.totals)
            else UnnamedSum(events, q, t, model)
    ensures CountersOf(events + [ev]) == Counted(CountersOf(events), ev)
  {
    hide EventMatches, Counted;
    assert (events + [ev])[..|events|] == events;
  }

  /** Counting one event adds to a query's counters, and gives it a row, if the event has a person and is in the query. */
  lemma OneEventCounts(rows: seq<Counter>, ev: Event, q: Query, t: Instant, model: string)
    requires HourOrCoarser(q.unit) && OnTheHour(q.from)
    ensures var hit := ev.person != "" && EventMatches(q, ev, t, model);
            && CounterSum(Counted(rows, ev), q, t, model) ==
               (if hit then CounterSum(rows, q, t, model).Plus(ev.totals) else CounterSum(rows, q, t, model))
            && (CounterHas(Counted(rows, ev), q, t, model) <==> hit || CounterHas(rows, q, t, model))
  {
    hide EventMatches, CounterMatches, Upsert, CounterSum, CounterHas;
    KeyMatchesAsItsEvent(ev, q, t, model);
    UpsertCounts(rows, KeyOf(ev, OfPerson), ev.totals, q, t, model);
    var mid := if ev.person == "" then rows else Upsert(rows, KeyOf(ev, OfPerson), ev.totals);
    UpsertCounts(mid, KeyOf(ev, OfAccount), ev.totals, q, t, model);
  }

  lemma OneEventShows(events: seq<Event>, ev: Event, q: Query, t: Instant, model: string)
    ensures RawHas(events + [ev], q, t, model) <==> RawHas(events, q, t, model) || EventMatches(q, ev, t, model)
    ensures UnnamedHas(events + [ev], q, t, model) <==>
            UnnamedHas(events, q, t, model) || (ev.person == "" && EventMatches(q, ev, t, model))
  {
    hide EventMatches;
    assert ev in events + [ev];
    assert forall x <- events :: x in events + [ev];
  }

  lemma {:induction false} UnnamedEventsAreNobodys(events: seq<Event>, q: Query, t: Instant, model: string)
    requires q.person != ""
    ensures UnnamedSum(events, q, t, model) == NOTHING && !UnnamedHas(events, q, t, model)
    decreases |events|
  {
    if events != [] {
      UnnamedEventsAreNobodys(events[..|events| - 1], q, t, model);
    }
  }

  /** So for a named person the counters answer as the events do, sums and rows alike. */
  lemma RollUpAgreesWithEvents(events: seq<Event>, q: Query, t: Instant, model: string)
    requires q.person != "" && HourOrCoarser(q.unit) && OnTheHour(q.from)
    ensures CounterSum(CountersOf(events), q, t, model) == RawSum(events, q, t, model)
    ensures CounterHas(CountersOf(events), q, t, model) <==> RawHas(events, q, t, model)
  {
    hide RawHas, CounterHas, UnnamedHas;
    CountersMissExactlyTheUnnamed(events, q, t, model);
    UnnamedEventsAreNobodys(events, q, t, model);
  }

  /** And for everyone they do exactly when the unnamed events come to nothing and need no row of their own. */
  lemma EveryonesRollUpAgreesExactlyWhen(events: seq<Event>, q: Query, t: Instant, model: string)
    requires q.person == "" && HourOrCoarser(q.unit) && OnTheHour(q.from)
    ensures CounterSum(CountersOf(events), q, t, model) == RawSum(events, q, t, model) <==> UnnamedSum(events, q, t, model) == NOTHING
    ensures (CounterHas(CountersOf(events), q, t, model) <==> RawHas(events, q, t, model))
            <==> (UnnamedHas(events, q, t, model) ==> CounterHas(CountersOf(events), q, t, model))
  {
    hide RawHas, CounterHas, UnnamedHas, CounterSum, RawSum, UnnamedSum, CountersOf;
    CountersMissExactlyTheUnnamed(events, q, t, model);
  }

  /**
    So the counter query and the raw query have the same answers, at every roll-up
    grain and from every start a view of it can have, the full one or an incremental one.
   */
  lemma TheSameRowsAnswerBoth(rows: seq<Row>, events: seq<Event>, person: string, res: Resolution, now: Instant, since: Instant)
    requires person != "" && res in RESOLUTIONS && !res.raw
    ensures var q := Query(person, res.unit, From(res, now, since));
            AnswersRaw(rows, events, q) <==> AnswersRollUp(rows, CountersOf(events), q)
  {
    hide RawHas, CounterHas, Grouped, From, CountersOf;
    EveryRollUpGrainIsHourOrCoarser(res);
    ViewsStartOnTheHour(res, now, since);
    var q := Query(person, res.unit, From(res, now, since));
    forall t, m
      ensures CounterSum(CountersOf(events), q, t, m) == RawSum(events, q, t, m)
      ensures CounterHas(CountersOf(events), q, t, m) <==> RawHas(events, q, t, m)
    {
      RollUpAgreesWithEvents(events, q, t, m);
    }
  }

  // ------------------------------------------------------------ each counter

  function ValueAt(rows: seq<Counter>, key: Key): Option<Totals> {
    var i := Find(rows, key);
    if i < |rows| then Some(rows[i].totals) else None
  }

  /** The totals of an event count under a key: its person's or its account's, for its hour and model. */
  predicate CountsUnder(ev: Event, key: Key) {
    && (if key.kind == OfPerson then ev.person == key.id else ev.account == key.id)
    && ev.model == key.model && key.hour <= ev.at < key.hour + HOUR && key.hour % HOUR == 0
  }

  /** What the events that count under a key add up to; nothing at all when there is none. */
  function SumUnder(events: seq<Event>, key: Key): Option<Totals> {
    if events == [] then None
    else
      var rest := SumUnder(events[..|events| - 1], key);
      var ev := events[|events| - 1];
      if !CountsUnder(ev, key) then rest
      else Some((if rest.Some? then rest.value else NOTHING).Plus(ev.totals))
  }

  lemma {:induction false} FindIs(rows: seq<Counter>, key: Key, i: nat)
    requires i <= |rows| && (i < |rows| ==> rows[i].key == key) && forall j :: 0 <= j < i ==> rows[j].key != key
    ensures Find(rows, key) == i
  {
  }

  lemma UpsertValue(rows: seq<Counter>, key: Key, t: Totals, k: Key)
    ensures ValueAt(Upsert(rows, key, t), k) ==
            if k == key then Some((if ValueAt(rows, k).Some? then ValueAt(rows, k).value else NOTHING).Plus(t)) else ValueAt(rows, k)
  {
    var i, j := Find(rows, key), Find(rows, k);
    var rows' := Upsert(rows, key, t);
    hide Find;
    if k == key {
      FindIs(rows', k, i);
    } else {
      FindIs(rows', k, if j == |rows| then |rows'| else j);
    }
  }

  lemma KeyOfCounts(ev: Event, key: Key)
    ensures CountsUnder(ev, key) <==> KeyOf(ev, key.kind) == key
  {
    hide FloorTo;
    HourOf(ev.at, key.hour);
  }

  lemma HourOf(t: Instant, hour: Instant)
    ensures FloorTo(t, HOUR) == hour <==> hour <= t < hour + HOUR && hour % HOUR == 0
  {
  }

  /** Every counter, a person's or an account's, holds exactly the sums of the events that count under its key. */
  lemma {:induction false} CountersAreTheSums(events: seq<Event>, key: Key)
    requires key.id != ""
    ensures ValueAt(CountersOf(events), key) == SumUnder(events, key)
    decreases |events|
  {
    hide Counted, CountsUnder, ValueAt;
    if events == [] {
      NothingCounted(key);
    } else {
      CountersAreTheSums(events[..|events| - 1], key);
      OneIsCounted(CountersOf(events[..|events| - 1]), events[|events| - 1], key);
    }
  }

  lemma OneIsCounted(rows: seq<Counter>, ev: Event, key: Key)
    requires key.id != ""
    ensures ValueAt(Counted(rows, ev), key) ==
            if !CountsUnder(ev, key) then ValueAt(rows, key)
            else Some((if ValueAt(rows, key).Some? then ValueAt(rows, key).value else NOTHING).Plus(ev.totals))
  {
    hide Upsert, KeyOf, CountsUnder, ValueAt;
    KeyOfCounts(ev, key);
    KindsDiffer(ev, key);
    var withPerson := if ev.person == "" then rows else Upsert(rows, KeyOf(ev, OfPerson), ev.totals);
    UpsertValue(rows, KeyOf(ev, OfPerson), ev.totals, key);
    UpsertValue(withPerson, KeyOf(ev, OfAccount), ev.totals, key);
    assert key.kind == OfPerson || key.kind == OfAccount;
  }

  lemma NothingCounted(key: Key)
    ensures ValueAt([], key) == None
  {
  }

  lemma KindsDiffer(ev: Event, key: Key)
    ensures KeyOf(ev, OfPerson) == key ==> key.kind == OfPerson && ev.person == key.id
    ensures KeyOf(ev, OfAccount) == key ==> key.kind == OfAccount && ev.account == key.id
  {
  }
}
