/**
  A person's usage over time (panelpg/series.go) and how each response is priced on its
  way in (cmd/clawdh-server/dbwriter.go): every bucket is split by token class, and the
  classes add up to the bucket.
 */
module Series {
  import opened Times
  import opened Calendar
  import opened Wrappers
  import opened Meter
  import opened UsageStore

  /** One metered response, as the gateway reports it. */
  datatype Metered = Metered(at: Instant, person: string, account: string, model: string, usage: Usage)

  /** What is stored of it: priced, and labelled as unknown when no rate is known. */
  function Priced(ev: Metered): Event {
    var m := Measure(ev.model, ev.usage);
    Event(ev.at, ev.person, ev.account, if m.known then ev.model else UNKNOWN + ev.model,
          Totals(m.weighted, ev.usage.input, ev.usage.output, ev.usage.cacheCreation, ev.usage.cacheRead))
  }

  function Stored(history: seq<Metered>): (events: seq<Event>)
    ensures |events| == |history| && forall i :: 0 <= i < |events| ==> events[i] == Priced(history[i])
  {
    seq(|history|, i requires 0 <= i < |history| => Priced(history[i]))
  }

  datatype Class = Class(tokens: int, weighted: real)
  {
    function Plus(o: Class): Class {
      Class(tokens + o.tokens, weighted + o.weighted)
    }
  }

  const NO_CLASS := Class(0, 0.0)

  /** What a bucket holds. */
  datatype Amounts = Amounts(weighted: real, tokens: int, input: Class, output: Class, cacheWrite: Class, cacheRead: Class)
  {
    function Plus(o: Amounts): Amounts {
      Amounts(weighted + o.weighted, tokens + o.tokens, input.Plus(o.input), output.Plus(o.output),
              cacheWrite.Plus(o.cacheWrite), cacheRead.Plus(o.cacheRead))
    }

    /** The classes add up to the whole. */
    predicate Reconciles() {
      && tokens == input.tokens + output.tokens + cacheWrite.tokens + cacheRead.tokens
      && weighted == input.weighted + output.weighted + cacheWrite.weighted + cacheRead.weighted
    }
  }

  const NO_AMOUNTS := Amounts(0.0, 0, NO_CLASS, NO_CLASS, NO_CLASS, NO_CLASS)

  datatype Point = Point(t: Instant, amounts: Amounts)

  /** A row's counts; how much of its cache writes were kept an hour is not stored. */
  function CountsOf(t: Totals): Usage {
    Usage(t.input, t.output, t.cacheCreation, 0, t.cacheRead)
  }

  /** One row's part of its bucket. */
  function PartOf(row: Row): Amounts {
    var t := row.totals;
    var parts := WeightedParts(row.model, CountsOf(t));
    var f := if parts.Sum() <= 0.0 then 0.0 else t.weighted / parts.Sum();
    Amounts(t.weighted, t.input + t.output + t.cacheCreation + t.cacheRead,
            Class(t.input, parts.input * f), Class(t.output, parts.output * f),
            Class(t.cacheCreation, parts.cacheCreation * f), Class(t.cacheRead, parts.cacheRead * f))
  }

  /** A bucket's amounts: its rows' parts, added up. */
  function AmountsAt(rows: seq<Row>, t: Instant): Amounts {
    if rows == [] then NO_AMOUNTS
    else
      var rest := AmountsAt(rows[..|rows| - 1], t);
      var row := rows[|rows| - 1];
      if row.t == t then rest.Plus(PartOf(row)) else rest
  }

  predicate ByBucket(rows: seq<Row>) {
    forall i, j :: 0 <= i < j < |rows| ==> rows[i].t <= rows[j].t
  }

  /** Folds one model's row into a point. */
  method AddModel(p: Point, row: Row) returns (q: Point)
    ensures q == Point(p.t, p.amounts.Plus(PartOf(row)))
  {
    hide WeightedParts, Parts.Sum;
    var t := row.totals;
    var a := p.amounts;
    a := a.(weighted := a.weighted + t.weighted, tokens := a.tokens + t.input + t.output + t.cacheCreation + t.cacheRead);
    a := a.(input := Class(a.input.tokens + t.input, a.input.weighted),
            output := Class(a.output.tokens + t.output, a.output.weighted),
            cacheWrite := Class(a.cacheWrite.tokens + t.cacheCreation, a.cacheWrite.weighted),
            cacheRead := Class(a.cacheRead.tokens + t.cacheRead, a.cacheRead.weighted));
    var parts := WeightedParts(row.model, CountsOf(t));
    var sum := parts.Sum();
    if sum <= 0.0 {
      assert PartOf(row) == Amounts(t.weighted, t.input + t.output + t.cacheCreation + t.cacheRead,
                                    Class(t.input, 0.0), Class(t.output, 0.0), Class(t.cacheCreation, 0.0), Class(t.cacheRead, 0.0));
      assert a == p.amounts.Plus(PartOf(row));
      return Point(p.t, a);
    }
    var f := t.weighted / sum;
    a := a.(input := Class(a.input.tokens, a.input.weighted + parts.input * f),
            output := Class(a.output.tokens, a.output.weighted + parts.output * f),
            cacheWrite := Class(a.cacheWrite.tokens, a.cacheWrite.weighted + parts.cacheCreation * f),
            cacheRead := Class(a.cacheRead.tokens, a.cacheRead.weighted + parts.cacheRead * f));
    assert PartOf(row) == Amounts(t.weighted, t.input + t.output + t.cacheCreation + t.cacheRead,
                                  Class(t.input, parts.input * f), Class(t.output, parts.output * f),
                                  Class(t.cacheCreation, parts.cacheCreation * f), Class(t.cacheRead, parts.cacheRead * f));
    return Point(p.t, a);
  }

  predicate HasRow(rows: seq<Row>, t: Instant) {
    exists r <- rows :: r.t == t
  }

  predicate HasPoint(out: seq<Point>, t: Instant) {
    exists p <- out :: p.t == t
  }

  /** What a series promises of its rows: one point a bucket, in order, each the sum of its rows. */
  ghost predicate SeriesOf(out: seq<Point>, rows: seq<Row>) {
    && (forall i, j :: 0 <= i < j < |out| ==> out[i].t < out[j].t)
    && (forall p <- out :: p.amounts == AmountsAt(rows, p.t) && HasRow(rows, p.t))
    && (forall r <- rows :: HasPoint(out, r.t))
  }

  lemma NothingIsASeries(rows: seq<Row>)
    requires rows == []
    ensures SeriesOf([], rows)
  {
  }

  /** The loop's body: a row opens a point for a new bucket or joins the last one. */
  method AddRow(points: seq<Point>, row: Row, ghost rows: seq<Row>) returns (out: seq<Point>)
    requires SeriesOf(points, rows) && ByBucket(rows + [row])
    requires points == [] <==> rows == []
    requires rows != [] ==> points[|points| - 1].t == rows[|rows| - 1].t
    ensures SeriesOf(out, rows + [row]) && out != [] && out[|out| - 1].t == row.t
  {
    hide *;
    out := points;
    if out == [] || out[|out| - 1].t != row.t {
      out := out + [Point(row.t, NO_AMOUNTS)];
    }
    ghost var begun := out;
    var p := AddModel(out[|out| - 1], row);
    out := out[|out| - 1 := p];
    SeriesGrows(points, begun, out, rows, row);
  }

  method BuildSeries(rows: seq<Row>) returns (out: seq<Point>)
    requires ByBucket(rows)
    ensures SeriesOf(out, rows)
  {
    hide *;
    out := [];
    NothingIsASeries(rows[..0]);
    var i := 0;
    while i < |rows|
      invariant 0 <= i <= |rows|
      invariant SeriesOf(out, rows[..i])
      invariant out == [] <==> i == 0
      invariant i > 0 ==> out[|out| - 1].t == rows[i - 1].t
    {
      PrefixIsByBucket(rows, i);
      out := AddRow(out, rows[i], rows[..i]);
      i := i + 1;
    }
    assert rows[..|rows|] == rows;
  }

  /** One more row keeps the promise: it opens a point for a new bucket or joins the last one. */
  lemma SeriesGrows(before: seq<Point>, begun: seq<Point>, out: seq<Point>, rows: seq<Row>, row: Row)
    requires SeriesOf(before, rows)
    requires before == [] <==> rows == []
    requires rows != [] ==> before[|before| - 1].t == rows[|rows| - 1].t
    requires ByBucket(rows + [row])
    requires begun == if before == [] || before[|before| - 1].t != row.t then before + [Point(row.t, NO_AMOUNTS)] else before
    requires out == begun[|begun| - 1 := Point(row.t, begun[|begun| - 1].amounts.Plus(PartOf(row)))]
    ensures SeriesOf(out, rows + [row])
  {
    hide PartOf, AmountsAt, Amounts.Plus, ByBucket, HasRow, HasPoint;
    var grown := rows + [row];
    var last := |begun| - 1;
    TheLastPointIsTheRows(before, begun, rows, row);
    forall p <- out
      ensures p.amounts == AmountsAt(grown, p.t) && HasRow(grown, p.t)
    {
      var k :| 0 <= k < |out| && out[k] == p;
      AmountsGrow(rows, row, p.t);
      RowsGrow(rows, row, p.t);
      if k < last {
        assert begun[k].t < begun[last].t && before[k] in before && p == before[k];
      }
    }
    forall r <- grown
      ensures HasPoint(out, r.t)
    {
      PointsStay(begun, out[last], r.t);
      if r.t != row.t {
        assert r in rows;
        PointsAreKept(before, begun, r.t);
      }
    }
  }

  lemma PointsStay(points: seq<Point>, p: Point, t: Instant)
    requires points != [] && points[|points| - 1].t == p.t
    ensures HasPoint(points, t) || t == p.t ==> HasPoint(points[|points| - 1 := p], t)
  {
    var out := points[|points| - 1 := p];
    assert out[|points| - 1] in out;
    if q :| q in points && q.t == t {
      var k :| 0 <= k < |points| && points[k] == q;
      assert out[k] in out;
    }
  }

  lemma PointsAreKept(before: seq<Point>, begun: seq<Point>, t: Instant)
    requires before <= begun && HasPoint(before, t)
    ensures HasPoint(begun, t)
  {
    var q :| q in before && q.t == t;
    assert q in begun;
  }

  lemma RowsGrow(rows: seq<Row>, row: Row, t: Instant)
    ensures HasRow(rows + [row], t) <==> HasRow(rows, t) || row.t == t
  {
    assert row in rows + [row];
    if r :| r in rows && r.t == t {
      assert r in rows + [row];
    }
  }

  lemma PrefixIsByBucket(rows: seq<Row>, n: nat)
    requires ByBucket(rows) && n < |rows|
    ensures rows[..n + 1] == rows[..n] + [rows[n]] && ByBucket(rows[..n] + [rows[n]])
  {
  }

  lemma RowsComeInOrder(rows: seq<Row>, row: Row, r: Row)
    requires ByBucket(rows + [row]) && r in rows
    ensures r.t <= row.t
  {
    var grown := rows + [row];
    var k :| 0 <= k < |rows| && rows[k] == r;
    assert grown[k].t <= grown[|rows|].t;
  }

  lemma PointsComeInOrder(points: seq<Point>, rows: seq<Row>, row: Row)
    requires SeriesOf(points, rows) && ByBucket(rows + [row])
    ensures forall p <- points :: p.t <= row.t
  {
    hide AmountsAt, ByBucket;
    forall p <- points ensures p.t <= row.t {
      assert HasRow(rows, p.t);
      var r :| r in rows && r.t == p.t;
      RowsComeInOrder(rows, row, r);
    }
  }

  lemma TheLastPointIsTheRows(before: seq<Point>, begun: seq<Point>, rows: seq<Row>, row: Row)
    requires SeriesOf(before, rows)
    requires before == [] <==> rows == []
    requires rows != [] ==> before[|before| - 1].t == rows[|rows| - 1].t
    requires ByBucket(rows + [row])
    requires begun == if before == [] || before[|before| - 1].t != row.t then before + [Point(row.t, NO_AMOUNTS)] else before
    ensures forall i, j :: 0 <= i < j < |begun| ==> begun[i].t < begun[j].t
    ensures begun != [] && begun[|begun| - 1] == Point(row.t, AmountsAt(rows, row.t))
  {
    hide AmountsAt, ByBucket, HasRow;
    PointsComeInOrder(before, rows, row);
    var n := |before|;
    if before == [] || before[n - 1].t != row.t {
      assert before != [] ==> before[n - 1] in before && before[n - 1].t < row.t;
      assert forall i :: 0 <= i < n ==> before[i].t < row.t;
      forall r <- rows ensures r.t != row.t {
        assert HasPoint(before, r.t);
      }
      NothingElsewhere(rows, row.t);
    } else {
      assert before[n - 1] in before;
    }
  }

  lemma AmountsGrow(rows: seq<Row>, row: Row, t: Instant)
    ensures AmountsAt(rows + [row], t) == if row.t == t then AmountsAt(rows, t).Plus(PartOf(row)) else AmountsAt(rows, t)
  {
    hide PartOf;
    assert (rows + [row])[..|rows|] == rows;
  }

  lemma {:induction false} NothingElsewhere(rows: seq<Row>, t: Instant)
    requires forall r <- rows :: r.t != t
    ensures AmountsAt(rows, t) == NO_AMOUNTS
    decreases |rows|
  {
    if rows != [] {
      assert rows[|rows| - 1] in rows;
      NothingElsewhere(rows[..|rows| - 1], t);
    }
  }

  // ------------------------------------------------------------ the classes add up

  lemma ScaledPartsAddUp(p: Parts, w: real)
    requires p.Sum() > 0.0
    ensures var f := w / p.Sum(); p.input * f + p.output * f + p.cacheCreation * f + p.cacheRead * f == w
  {
    var f := w / p.Sum();
    assert p.input * f + p.output * f + p.cacheCreation * f + p.cacheRead * f == p.Sum() * f;
    assert p.Sum() * f == w;
  }

  /** A row's tokens always reconcile; its weight does exactly when there is weight to split by, or none to split. */
  lemma ARowReconcilesExactlyWhen(row: Row)
    ensures PartOf(row).Reconciles() <==>
            WeightedParts(row.model, CountsOf(row.totals)).Sum() > 0.0 || row.totals.weighted == 0.0
  {
    hide WeightedParts, Parts.Sum;
    var parts := WeightedParts(row.model, CountsOf(row.totals));
    if parts.Sum() > 0.0 {
      ScaledPartsAddUp(parts, row.totals.weighted);
    }
  }

  /** Totals whose weight is only ever a known model's, and only for tokens that were used. */
  predicate Splittable(model: string, t: Totals) {
    && NonNegative(CountsOf(t))
    && (NoTokens(CountsOf(t)) || RateFor(model).None? ==> t.weighted == 0.0)
  }

  lemma PricedIsSplittable(ev: Metered)
    requires NonNegative(ev.usage)
    ensures Splittable(Priced(ev).model, Priced(ev).totals)
  {
    hide RateFor;
    LabelKeepsKnown(ev.model);
    if RateFor(ev.model).Some? && NoTokens(ev.usage) {
      PartsVanishExactlyWhenUnused(ev.model, ev.usage);
    }
  }

  lemma SplittableTotalsReconcile(row: Row)
    requires Splittable(row.model, row.totals)
    ensures PartOf(row).Reconciles()
  {
    hide PartOf, RateFor, WeightedParts, Parts.Sum;
    ARowReconcilesExactlyWhen(row);
    if RateFor(row.model).Some? {
      PartsVanishExactlyWhenUnused(row.model, CountsOf(row.totals));
    }
  }

  /** Sums of splittable totals are splittable, so every row of a query over priced events is. */
  lemma {:induction false} RawSumsAreSplittable(history: seq<Metered>, q: Query, t: Instant, model: string)
    requires forall ev <- history :: NonNegative(ev.usage)
    ensures Splittable(model, RawSum(Stored(history), q, t, model))
    decreases |history|
  {
    hide EventMatches, RateFor, Priced;
    if history != [] {
      var n := |history| - 1;
      assert Stored(history)[..n] == Stored(history[..n]);
      RawSumsAreSplittable(history[..n], q, t, model);
      assert history[n] in history;
      PricedIsSplittable(history[n]);
      assert EventMatches(q, Priced(history[n]), t, model) ==> Priced(history[n]).model == model by {
        MatchesItsModel(q, Priced(history[n]), t, model);
      }
    }
  }

  lemma MatchesItsModel(q: Query, ev: Event, t: Instant, model: string)
    ensures EventMatches(q, ev, t, model) ==> ev.model == model
  {
  }

  lemma {:induction false} ReconcilingRowsAddUp(rows: seq<Row>, t: Instant)
    requires forall r <- rows :: PartOf(r).Reconciles()
    ensures AmountsAt(rows, t).Reconciles()
    decreases |rows|
  {
    hide PartOf;
    if rows != [] {
      assert rows[|rows| - 1] in rows;
      ReconcilingRowsAddUp(rows[..|rows| - 1], t);
    }
  }

  /** Every bucket of a series over recorded responses reconciles, unknown models included. */
  lemma EveryBucketReconciles(out: seq<Point>, rows: seq<Row>, history: seq<Metered>, q: Query)
    requires forall ev <- history :: NonNegative(ev.usage)
    requires AnswersRaw(rows, Stored(history), q) && SeriesOf(out, rows)
    ensures forall p <- out :: p.amounts.Reconciles()
  {
    hide AmountsAt, PartOf, RawSum, RawHas, Grouped, Splittable;
    forall r <- rows ensures PartOf(r).Reconciles() {
      RawSumsAreSplittable(history, q, r.t, r.model);
      SplittableTotalsReconcile(r);
    }
    forall p <- out ensures p.amounts.Reconciles() {
      ReconcilingRowsAddUp(rows, p.t);
    }
  }

  /** And so does every bucket read from the hourly counters. */
  lemma EveryRolledUpBucketReconciles(out: seq<Point>, rows: seq<Row>, history: seq<Metered>,
                                      person: string, res: Resolution, now: Instant, since: Instant)
    requires forall ev <- history :: NonNegative(ev.usage)
    requires person != "" && res in RESOLUTIONS && !res.raw
    requires AnswersRollUp(rows, CountersOf(Stored(history)), Query(person, res.unit, From(res, now, since)))
    requires SeriesOf(out, rows)
    ensures forall p <- out :: p.amounts.Reconciles()
  {
    hide AnswersRaw, AnswersRollUp, From;
    TheSameRowsAnswerBoth(rows, Stored(history), person, res, now, since);
    EveryBucketReconciles(out, rows, history, Query(person, res.unit, From(res, now, since)));
  }

  /** Each class of a row has its own tokens, and of the row's weight the part its tokens' price has in the row's. */
  lemma EachClassHasItsPart(row: Row)
    ensures var p, t, parts := PartOf(row), row.totals, WeightedParts(row.model, CountsOf(row.totals));
            && p.input.tokens == t.input && p.output.tokens == t.output
            && p.cacheWrite.tokens == t.cacheCreation && p.cacheRead.tokens == t.cacheRead
            && p.weighted == t.weighted && p.tokens == t.input + t.output + t.cacheCreation + t.cacheRead
            && (parts.Sum() > 0.0 ==>
                  && p.input.weighted * parts.Sum() == t.weighted * parts.input
                  && p.output.weighted * parts.Sum() == t.weighted * parts.output
                  && p.cacheWrite.weighted * parts.Sum() == t.weighted * parts.cacheCreation
                  && p.cacheRead.weighted * parts.Sum() == t.weighted * parts.cacheRead)
            && (parts.Sum() <= 0.0 ==>
                  p.input.weighted == p.output.weighted == p.cacheWrite.weighted == p.cacheRead.weighted == 0.0)
  {
    hide WeightedParts, Parts.Sum;
    var t, parts := row.totals, WeightedParts(row.model, CountsOf(row.totals));
    var sum := parts.Sum();
    if sum > 0.0 {
      APartOf(parts.input, t.weighted, sum);
      APartOf(parts.output, t.weighted, sum);
      APartOf(parts.cacheCreation, t.weighted, sum);
      APartOf(parts.cacheRead, t.weighted, sum);
    }
  }

  lemma APartOf(part: real, weighted: real, sum: real)
    requires sum > 0.0
    ensures part * (weighted / sum) * sum == weighted * part
  {
    var f := weighted / sum;
    assert f * sum == weighted;
    assert part * f * sum == part * (f * sum);
  }
}
