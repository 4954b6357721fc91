/**
  Who spent an account's week (panel/attribution.go), over the reals: the size of a plan's
  week is learned from its watched weeks, and a week's reading is split into people's
  shares and a remainder nobody is charged for.
 */
module Attribution {
  import opened Times
  import opened Wrappers

  /** What one weekly window taught: how full the plan was said to be, and what the gateway metered. */
  datatype WeekSample = WeekSample(reset: Instant, util: real, weighted: real)
  {
    /** The size a week shows; only weeks with a reading are asked. */
    function Size(): real {
      if util > 0.0 then weighted / util else 0.0
    }
  }

  datatype Basis = History | NoBasis

  const MIN_SCALE_UTIL := 0.25
  const SCALE_WEEKS := 4
  const SLACK := 0.000_000_001

  /** A finished week whose reading is large enough to learn from. */
  predicate Teaches(s: WeekSample, now: Instant) {
    s.reset <= now && Tells(s)
  }

  predicate Tells(s: WeekSample) {
    s.util >= MIN_SCALE_UTIL && s.weighted > 0.0
  }

  /** The first n weeks that teach, newest first. */
  function Lessons(samples: seq<WeekSample>, now: Instant, n: nat): (l: seq<WeekSample>)
    ensures forall s <- l :: s in samples && Teaches(s, now)
    ensures |l| <= n
  {
    if samples == [] || n == 0 then []
    else if Teaches(samples[0], now) then [samples[0]] + Lessons(samples[1..], now, n - 1)
    else Lessons(samples[1..], now, n)
  }

  /** The weeks a plan's size is learned from: finished ones and, once there is one, the running one. */
  function LearnedFrom(samples: seq<WeekSample>, cur: Option<WeekSample>, now: Instant): (l: seq<WeekSample>)
    ensures forall s <- l :: Tells(s) && (s in samples || cur == Some(s))
  {
    var l := Lessons(samples, now, SCALE_WEEKS);
    if l != [] && cur.Some? && Tells(cur.value) then l + [cur.value] else l
  }

  /** The largest size any of the weeks has shown. */
  predicate IsLargest(tokens: real, weeks: seq<WeekSample>)
  {
    && (forall s <- weeks :: s.Size() <= tokens)
    && (exists s <- weeks :: s.Size() == tokens)
  }

  method WeekScale(samples: seq<WeekSample>, cur: Option<WeekSample>, now: Instant) returns (tokens: real, basis: Basis)
    ensures basis == NoBasis <==> LearnedFrom(samples, cur, now) == []
    ensures basis == NoBasis ==> tokens == 0.0
    ensures basis == History ==> IsLargest(tokens, LearnedFrom(samples, cur, now))
  {
    tokens := 0.0;
    var n := 0;
    var i := 0;
    ghost var taught: seq<WeekSample> := [];
    while i < |samples|
      invariant 0 <= i <= |samples| && n == |taught| <= SCALE_WEEKS
      invariant taught + Lessons(samples[i..], now, SCALE_WEEKS - n) == Lessons(samples, now, SCALE_WEEKS)
      invariant forall s <- taught :: Tells(s)
      invariant if taught == [] then tokens == 0.0 else IsLargest(tokens, taught)
    {
      if n == SCALE_WEEKS {
        break;
      }
      var s := samples[i];
      assert samples[i..][0] == s && samples[i..][1..] == samples[i + 1..];
      i := i + 1;
      if s.reset > now || s.util < MIN_SCALE_UTIL || s.weighted <= 0.0 {
        continue;
      }
      n := n + 1;
      PositiveSize(s);
      tokens := Larger(tokens, s, taught);
      taught := taught + [s];
    }
    if n == 0 {
      return 0.0, NoBasis;
    }
    if cur.Some? && cur.value.util >= MIN_SCALE_UTIL && cur.value.weighted > 0.0 {
      tokens := Larger(tokens, cur.value, taught);
    }
    basis := History;
  }

  lemma PositiveSize(s: WeekSample)
    requires Tells(s)
    ensures s.Size() > 0.0
  {
  }

  method Larger(tokens: real, s: WeekSample, ghost taught: seq<WeekSample>) returns (t: real)
    requires Tells(s) && forall s <- taught :: Tells(s)
    requires if taught == [] then tokens == 0.0 else IsLargest(tokens, taught)
    ensures IsLargest(t, taught + [s])
  {
    PositiveSize(s);
    var size := s.weighted / s.util;
    t := if size > tokens then size else tokens;
    assert s in taught + [s];
    if t == tokens && taught != [] {
      ghost var w :| w in taught && w.Size() == tokens;
      assert w in taught + [s];
    }
  }

  /** How many finished weeks, of a reading of a quarter or more and of any metered use, there are. */
  function Watched(samples: seq<WeekSample>, now: Instant): (n: nat)
    ensures n == 0 <==> forall s <- samples :: !(s.reset <= now && s.util >= 0.25 && s.weighted > 0.0)
    ensures n <= |samples|
  {
    if samples == [] then 0
    else
      assert samples == [samples[0]] + samples[1..];
      Watched(samples[1..], now) + if samples[0].reset <= now && samples[0].util >= 0.25 && samples[0].weighted > 0.0 then 1 else 0
  }

  /** The k-th lesson is the k-th such week, up to the number asked for. */
  lemma {:induction false} LessonsAre(samples: seq<WeekSample>, now: Instant, n: nat, i: nat)
    requires i <= |samples|
    ensures |Lessons(samples, now, n)| == (if Watched(samples, now) < n then Watched(samples, now) else n)
    ensures Watched(samples[..i], now) <= Watched(samples, now)
    ensures i < |samples| && Teaches(samples[i], now) && Watched(samples[..i], now) < n ==>
              Watched(samples[..i], now) < Watched(samples, now) && Lessons(samples, now, n)[Watched(samples[..i], now)] == samples[i]
    decreases |samples|
  {
    if samples != [] {
      hide Teaches, Tells;
      OneIsWatched(samples, now);
      LessonsStep(samples, now, n);
      var rest := samples[1..];
      if i > 0 {
        OneIsWatched(samples[..i], now);
        assert samples[..i][1..] == rest[..i - 1];
      }
      hide Watched, Lessons;
      var m := if n > 0 && Teaches(samples[0], now) then n - 1 else n;
      LessonsAre(rest, now, m, if i > 0 then i - 1 else 0);
      assert i > 0 && i < |samples| ==> rest[i - 1] == samples[i];
    }
  }

  lemma OneIsWatched(samples: seq<WeekSample>, now: Instant)
    requires samples != []
    ensures Watched(samples, now) == Watched(samples[1..], now) + if Teaches(samples[0], now) then 1 else 0
  {
  }

  lemma LessonsStep(samples: seq<WeekSample>, now: Instant, n: nat)
    requires samples != []
    ensures Lessons(samples, now, n) ==
            if n == 0 then [] else if Teaches(samples[0], now) then [samples[0]] + Lessons(samples[1..], now, n - 1) else Lessons(samples[1..], now, n)
  {
  }

  /**
    The size is learned from the first four finished weeks of a large enough reading, and
    beside them, if there is one at all, from the running week if its reading is.
   */
  lemma TheWeeksAre(samples: seq<WeekSample>, cur: Option<WeekSample>, now: Instant)
    ensures var n := if Watched(samples, now) < 4 then Watched(samples, now) else 4;
            var weeks := LearnedFrom(samples, cur, now);
            var running := n > 0 && cur.Some? && cur.value.util >= 0.25 && cur.value.weighted > 0.0;
            && |weeks| == n + (if running then 1 else 0)
            && (running ==> weeks[n] == cur.value)
            && (forall i :: 0 <= i < |samples| && samples[i].reset <= now && samples[i].util >= 0.25 && samples[i].weighted > 0.0
                            && Watched(samples[..i], now) < 4 ==>
                  Watched(samples[..i], now) < n && weeks[Watched(samples[..i], now)] == samples[i])
  {
    LessonsAre(samples, now, 4, 0);
    forall i | 0 <= i < |samples| && Teaches(samples[i], now) && Watched(samples[..i], now) < 4
      ensures Watched(samples[..i], now) < |Lessons(samples, now, 4)|
      ensures Lessons(samples, now, 4)[Watched(samples[..i], now)] == samples[i]
    {
      LessonsAre(samples, now, 4, i);
    }
    hide Lessons, Watched;
  }

  /** There is no size exactly when no finished week tells, whatever the running one does. */
  lemma ThereIsNoSizeExactlyWhen(samples: seq<WeekSample>, cur: Option<WeekSample>, now: Instant)
    ensures LearnedFrom(samples, cur, now) == [] <==>
            forall s <- samples :: now < s.reset || s.util < 0.25 || s.weighted <= 0.0
  {
    TheWeeksAre(samples, cur, now);
  }

  /** Every week metered at most what was used of it, so no week shows more than the plan's true size. */
  predicate SawNoMoreThan(s: WeekSample, size: real) {
    s.weighted <= s.util * size
  }

  /** The learned size is never above the true one, and is the true one once a week had no use outside. */
  lemma TheLearnedSizeIsALowerBound(tokens: real, samples: seq<WeekSample>, cur: Option<WeekSample>, now: Instant, size: real)
    requires forall s <- samples :: SawNoMoreThan(s, size)
    requires cur.Some? ==> SawNoMoreThan(cur.value, size)
    requires IsLargest(tokens, LearnedFrom(samples, cur, now))
    ensures 0.0 < tokens <= size
    ensures (exists s <- LearnedFrom(samples, cur, now) :: s.weighted == s.util * size) ==> tokens == size
  {
    hide LearnedFrom;
    var weeks := LearnedFrom(samples, cur, now);
    var w :| w in weeks && w.Size() == tokens;
    assert SawNoMoreThan(w, size);
    SizeIsAtMost(w, size);
    PositiveSize(w);
    if s :| s in weeks && s.weighted == s.util * size {
      assert s.Size() == size;
    }
  }

  lemma SizeIsAtMost(s: WeekSample, size: real)
    requires s.util > 0.0 && SawNoMoreThan(s, size)
    ensures s.Size() <= size
  {
    assert s.Size() * s.util == s.weighted;
    if s.Size() > size {
      Positive(s.Size() - size, s.util);
    }
  }

  lemma Positive(x: real, y: real)
    requires x > 0.0 && y > 0.0
    ensures x * y > 0.0
  {
  }

  // ------------------------------------------------------------ the split

  function Sum(s: seq<real>): real {
    if s == [] then 0.0 else Sum(s[..|s| - 1]) + s[|s| - 1]
  }

  function ScaledBy(s: seq<real>, f: real): (r: seq<real>)
    ensures |r| == |s| && forall i :: 0 <= i < |s| ==> r[i] == s[i] * f
  {
    seq(|s|, i requires 0 <= i < |s| => s[i] * f)
  }

  function Over(s: seq<real>, d: real): (r: seq<real>)
    requires d != 0.0
    ensures |r| == |s| && forall i :: 0 <= i < |s| ==> r[i] == s[i] / d
  {
    seq(|s|, i requires 0 <= i < |s| => s[i] / d)
  }

  /** What the split gives each person. */
  function SharesOf(reading: real, tokens: real, weighted: seq<real>): (r: seq<real>)
    ensures |r| == |weighted|
  {
    if reading <= 0.0 || tokens <= 0.0 then seq(|weighted|, i => 0.0)
    else
      var shares := Over(weighted, tokens);
      if Sum(shares) > reading then ScaledBy(shares, reading / Sum(shares)) else shares
  }

  /** What the split leaves to nobody. */
  function RestOf(reading: real, tokens: real, weighted: seq<real>): real {
    if reading <= 0.0 then 0.0
    else if tokens <= 0.0 then reading
    else
      var rest := reading - Sum(Over(weighted, tokens));
      if rest > SLACK then rest else 0.0
  }

  method SplitWeek(reading: real, tokens: real, weighted: seq<real>) returns (shares: array<real>, unaccounted: real)
    ensures fresh(shares)
    ensures shares[..] == SharesOf(reading, tokens, weighted)
    ensures unaccounted == RestOf(reading, tokens, weighted)
  {
    shares := new real[|weighted|](i => 0.0);
    if reading <= 0.0 {
      return shares, 0.0;
    }
    if tokens <= 0.0 {
      return shares, reading;
    }
    var sum := Divide(shares, weighted, tokens);
    if sum > reading {
      Rescale(shares, reading / sum);
      sum := reading;
    }
    var rest := reading - sum;
    unaccounted := if rest > SLACK then rest else 0.0;
  }

  /** The first loop: each figure over the plan's size, and their sum. */
  method Divide(shares: array<real>, weighted: seq<real>, tokens: real) returns (sum: real)
    requires tokens > 0.0 && shares.Length == |weighted|
    modifies shares
    ensures shares[..] == Over(weighted, tokens) && sum == Sum(Over(weighted, tokens))
  {
    ghost var over := Over(weighted, tokens);
    sum := 0.0;
    for i := 0 to |weighted|
      invariant forall j :: 0 <= j < i ==> shares[j] == over[j]
      invariant sum == Sum(over[..i])
    {
      shares[i] := weighted[i] / tokens;
      sum := sum + shares[i];
      assert over[..i + 1][..i] == over[..i];
    }
    assert over[..|over|] == over;
  }

  /** The second loop: every share scaled where it stands. */
  method Rescale(shares: array<real>, f: real)
    modifies shares
    ensures shares[..] == ScaledBy(old(shares[..]), f)
  {
    ghost var scaled := ScaledBy(shares[..], f);
    for i := 0 to shares.Length
      invariant forall j :: 0 <= j < i ==> shares[j] == scaled[j]
      invariant forall j :: i <= j < shares.Length ==> shares[j] == old(shares[j])
    {
      shares[i] := shares[i] * f;
    }
  }

  lemma {:induction false} SumOver(s: seq<real>, d: real)
    requires d != 0.0
    ensures Sum(Over(s, d)) == Sum(s) / d
    decreases |s|
  {
    if s != [] {
      var n := |s| - 1;
      assert Over(s, d)[..n] == Over(s[..n], d);
      SumOver(s[..n], d);
      assert Sum(s[..n]) / d + s[n] / d == (Sum(s[..n]) + s[n]) / d;
    }
  }

  lemma {:induction false} SumTimes(s: seq<real>, f: real)
    ensures Sum(ScaledBy(s, f)) == Sum(s) * f
    decreases |s|
  {
    if s != [] {
      var n := |s| - 1;
      assert forall i :: 0 <= i < n ==> ScaledBy(s, f)[i] == ScaledBy(s[..n], f)[i];
      assert ScaledBy(s, f)[..n] == ScaledBy(s[..n], f);
      SumTimes(s[..n], f);
      assert Sum(s[..n]) * f + s[n] * f == (Sum(s[..n]) + s[n]) * f;
    }
  }

  lemma {:induction false} SumOfZeros(n: nat)
    ensures Sum(seq(n, i => 0.0)) == 0.0
  {
    if n > 0 {
      assert seq(n, i => 0.0)[..n - 1] == seq(n - 1, i => 0.0);
      SumOfZeros(n - 1);
    }
  }

  /** Shares and remainder are the reading again, but for at most the slack. */
  lemma NothingIsLostInTheSplit(reading: real, tokens: real, weighted: seq<real>)
    requires reading > 0.0
    ensures var total := Sum(SharesOf(reading, tokens, weighted)) + RestOf(reading, tokens, weighted);
            reading - SLACK <= total <= reading
  {
    if tokens <= 0.0 {
      SumOfZeros(|weighted|);
    } else {
      var shares := Over(weighted, tokens);
      var sum := Sum(shares);
      if sum > reading {
        SumTimes(shares, reading / sum);
      }
    }
  }

  /** Shares are in proportion to what was metered, and never more than it over the size. */
  lemma SharesAreInProportion(reading: real, tokens: real, weighted: seq<real>, i: nat, j: nat)
    requires i < |weighted| && j < |weighted| && forall k :: 0 <= k < |weighted| ==> weighted[k] >= 0.0
    ensures var shares := SharesOf(reading, tokens, weighted);
            && shares[i] * weighted[j] == shares[j] * weighted[i]
            && (tokens > 0.0 ==> 0.0 <= shares[i] <= weighted[i] / tokens)
  {
    hide Sum;
    if reading > 0.0 && tokens > 0.0 {
      var sum := Sum(Over(weighted, tokens));
      var f := if sum > reading then reading / sum else 1.0;
      if sum > reading {
        AFraction(reading, sum);
      }
      Scaled(weighted[i], weighted[j], tokens, f);
    }
  }

  lemma AFraction(x: real, y: real)
    requires 0.0 < x < y
    ensures 0.0 <= x / y <= 1.0
  {
    var q := x / y;
    assert q * y == x;
    assert q > 1.0 ==> (q - 1.0) * y > 0.0;
    assert q < 0.0 ==> -q * y > 0.0;
  }

  lemma Scaled(x: real, y: real, tokens: real, f: real)
    requires x >= 0.0 && tokens > 0.0 && 0.0 <= f <= 1.0
    ensures (x / tokens * f) * y == (y / tokens * f) * x
    ensures 0.0 <= x / tokens * f <= x / tokens
  {
    var q := x / tokens;
    assert q >= 0.0;
    assert q * f <= q * 1.0;
    var r := 1.0 / tokens;
    assert x / tokens == x * r && y / tokens == y * r;
    assert (x * r * f) * y == (y * r * f) * x;
  }

  /**
    Where the learned size is at most the true one, and the gateway saw no more than was
    really used: nobody's share is below what they used, and the remainder is at most what
    was really spent outside.
   */
  lemma SharesAreUpperBounds(reading: real, tokens: real, weighted: seq<real>, size: real)
    requires reading > 0.0 && 0.0 < tokens <= size
    requires forall i :: 0 <= i < |weighted| ==> weighted[i] >= 0.0
    requires Sum(weighted) <= reading * size
    ensures forall i :: 0 <= i < |weighted| ==> SharesOf(reading, tokens, weighted)[i] >= weighted[i] / size
    ensures RestOf(reading, tokens, weighted) <= reading - Sum(weighted) / size
    ensures tokens == size ==>
              && (forall i :: 0 <= i < |weighted| ==> SharesOf(reading, tokens, weighted)[i] == weighted[i] / size)
              && reading - Sum(weighted) / size - SLACK <= RestOf(reading, tokens, weighted)
  {
    hide SharesOf, RestOf;
    forall i | 0 <= i < |weighted|
      ensures SharesOf(reading, tokens, weighted)[i] >= weighted[i] / size
      ensures tokens == size ==> SharesOf(reading, tokens, weighted)[i] == weighted[i] / size
    {
      AShareIsAnUpperBound(reading, tokens, weighted, size, i);
    }
    TheRestIsALowerBound(reading, tokens, weighted, size);
  }

  lemma AShareIsAnUpperBound(reading: real, tokens: real, weighted: seq<real>, size: real, i: nat)
    requires reading > 0.0 && 0.0 < tokens <= size && i < |weighted|
    requires forall i :: 0 <= i < |weighted| ==> weighted[i] >= 0.0
    requires Sum(weighted) <= reading * size
    ensures SharesOf(reading, tokens, weighted)[i] >= weighted[i] / size
    ensures tokens == size ==> SharesOf(reading, tokens, weighted)[i] == weighted[i] / size
  {
    hide Sum;
    var total := Sum(weighted);
    SumOver(weighted, tokens);
    if total / tokens > reading {
      ScaledShare(weighted[i], total, reading, tokens, size);
      AtMostTheReading(total, reading, size);
    } else {
      DividingByMore(weighted[i], tokens, size);
    }
  }

  lemma TheRestIsALowerBound(reading: real, tokens: real, weighted: seq<real>, size: real)
    requires reading > 0.0 && 0.0 < tokens <= size
    requires forall i :: 0 <= i < |weighted| ==> weighted[i] >= 0.0
    requires Sum(weighted) <= reading * size
    ensures RestOf(reading, tokens, weighted) <= reading - Sum(weighted) / size
    ensures tokens == size ==> reading - Sum(weighted) / size - SLACK <= RestOf(reading, tokens, weighted)
  {
    hide Sum;
    var total := Sum(weighted);
    SumOver(weighted, tokens);
    SumIsNotNegative(weighted);
    DividingByMore(total, tokens, size);
    AtMostTheReading(total, reading, size);
  }

  lemma {:induction false} SumIsNotNegative(s: seq<real>)
    requires forall i :: 0 <= i < |s| ==> s[i] >= 0.0
    ensures Sum(s) >= 0.0
    decreases |s|
  {
    if s != [] {
      SumIsNotNegative(s[..|s| - 1]);
    }
  }

  lemma DividingByMore(x: real, a: real, b: real)
    requires x >= 0.0 && 0.0 < a <= b
    ensures x / a >= x / b
  {
    var q := x / b;
    assert q * b == x && q >= 0.0;
    assert q * a <= q * b;
    assert x / a - q == (x - q * a) / a;
  }

  lemma AtMostTheReading(total: real, reading: real, size: real)
    requires size > 0.0 && total <= reading * size
    ensures total / size <= reading
  {
    var q := total / size;
    assert q * size == total;
    if q > reading {
      assert (q - reading) * size > 0.0;
    }
  }

  /** A scaled share is the reading's part in proportion, still at least the true fraction. */
  lemma ScaledShare(w: real, total: real, reading: real, tokens: real, size: real)
    requires w >= 0.0 && reading > 0.0 && 0.0 < tokens && 0.0 < size
    requires total / tokens > reading && total <= reading * size
    ensures w / tokens * (reading / (total / tokens)) >= w / size
  {
    var s := total / tokens;
    assert s * tokens == total && s > 0.0;
    assert s * tokens > 0.0;
    var share := w / tokens * (reading / s);
    assert share * total == w * reading by {
      calc {
        share * total;
        (w / tokens * tokens) * (reading / s * s);
        w * reading;
      }
    }
    var q := w / size;
    assert q * size == w && q >= 0.0;
    assert q * total <= q * (reading * size);
    assert q * (reading * size) == w * reading;
    assert (share - q) * total >= 0.0;
    if share < q {
      assert (q - share) * total > 0.0;
    }
  }

  /**
    The board's promise, from the samples to the shares: with every finished week, and the
    running one, metering at most what was used, a known size gives shares that are upper
    bounds and a remainder that is a lower bound.
   */
  lemma TheBoardNeverUndercharges(samples: seq<WeekSample>, watched: bool, reset: Instant, now: Instant,
                                  reading: real, weighted: seq<real>, tokens: real, size: real)
    requires reading > 0.0 && size > 0.0 && forall i :: 0 <= i < |weighted| ==> weighted[i] >= 0.0
    requires forall s <- samples :: SawNoMoreThan(s, size)
    requires Sum(weighted) <= reading * size
    requires var cur := if watched && Sum(weighted) > 0.0 then Some(WeekSample(reset, reading, Sum(weighted))) else None;
             IsLargest(tokens, LearnedFrom(samples, cur, now))
    ensures forall i :: 0 <= i < |weighted| ==> SharesOf(reading, tokens, weighted)[i] >= weighted[i] / size
    ensures RestOf(reading, tokens, weighted) <= reading - Sum(weighted) / size
  {
    hide SharesOf, RestOf, LearnedFrom, IsLargest, Sum;
    var cur := if watched && Sum(weighted) > 0.0 then Some(WeekSample(reset, reading, Sum(weighted))) else None;
    TheLearnedSizeIsALowerBound(tokens, samples, cur, now, size);
    SharesAreUpperBounds(reading, tokens, weighted, size);
  }
}
