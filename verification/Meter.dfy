/** Weighted tokens and dollar cost (internal/meter/weights.go), over the reals. */
module Meter {
  import opened Wrappers
  import opened Strings

  /** A response's token counts; `cacheCreation1h` is the part of the cache writes kept an hour. */
  datatype Usage = Usage(input: int, output: int, cacheCreation: int, cacheCreation1h: int, cacheRead: int)

  datatype Rate = Rate(inUSD: real, outUSD: real, weight: real)

  datatype Parts = Parts(input: real, output: real, cacheCreation: real, cacheRead: real)
  {
    function Sum(): real {
      input + output + cacheCreation + cacheRead
    }
  }

  const BASELINE_INPUT_USD := 3.0
  const CACHE_CREATION_MULT := 1.25
  const CACHE_CREATION_1H_MULT := 2.0
  const CACHE_READ_MULT := 0.10
  const OUTPUT_MULT := 5.0
  const PER_MILLION := 1_000_000.0

  const RATES: seq<(string, Rate)> := [
    ("claude-fable-5", Rate(10.0, 50.0, 10.0 / BASELINE_INPUT_USD)),
    ("claude-mythos-5", Rate(10.0, 50.0, 10.0 / BASELINE_INPUT_USD)),
    ("claude-opus", Rate(5.0, 25.0, 5.0 / BASELINE_INPUT_USD)),
    ("claude-sonnet-5", Rate(2.0, 10.0, 2.0 / BASELINE_INPUT_USD)),
    ("claude-sonnet-4", Rate(3.0, 15.0, 1.0)),
    ("claude-sonnet-3", Rate(3.0, 15.0, 1.0)),
    ("claude-haiku", Rate(1.0, 5.0, 1.0 / BASELINE_INPUT_USD))]

  /** The index of the first rate whose prefix the model has, or the table's length. */
  function FirstMatch(model: string, rates: seq<(string, Rate)>): (i: nat)
    ensures i <= |rates|
    ensures i < |rates| ==> rates[i].0 <= model
    ensures forall j :: 0 <= j < i ==> !(rates[j].0 <= model)
  {
    if rates == [] || rates[0].0 <= model then 0 else 1 + FirstMatch(model, rates[1..])
  }

  function RateFor(model: string): Option<Rate> {
    var i := FirstMatch(Lower(Trim(model)), RATES);
    if i < |RATES| then Some(RATES[i].1) else None
  }

  function Min(a: int, b: int): int { if a < b then a else b }
  function Max(a: int, b: int): int { if a < b then b else a }

  /** Cache writes in input tokens: the five-minute part at 1.25, the hour part at 2. */
  function CacheWriteUnits(u: Usage): real {
    var hour := Min(Max(u.cacheCreation1h, 0), u.cacheCreation);
    (u.cacheCreation - hour) as real * CACHE_CREATION_MULT + hour as real * CACHE_CREATION_1H_MULT
  }

  function PartsAt(r: Rate, u: Usage): Parts {
    Parts(u.input as real * r.weight, u.output as real * OUTPUT_MULT * r.weight,
          CacheWriteUnits(u) * r.weight, u.cacheRead as real * CACHE_READ_MULT * r.weight)
  }

  function WeightedParts(model: string, u: Usage): Parts {
    var r := RateFor(model);
    if r.None? then Parts(0.0, 0.0, 0.0, 0.0) else PartsAt(r.value, u)
  }

  datatype Measured = Measured(weighted: real, costUSD: real, known: bool)

  function Measure(model: string, u: Usage): Measured {
    var r := RateFor(model);
    if r.None? then Measured(0.0, 0.0, false)
    else
      Measured(PartsAt(r.value, u).Sum(),
               u.input as real / PER_MILLION * r.value.inUSD
               + u.output as real / PER_MILLION * r.value.outUSD
               + CacheWriteUnits(u) / PER_MILLION * r.value.inUSD
               + u.cacheRead as real / PER_MILLION * r.value.inUSD * CACHE_READ_MULT,
               true)
  }

  /** The label a model's usage is stored under. */
  const UNKNOWN := "unknown:"

  function LabelOf(model: string): string {
    if RateFor(model).Some? then model else UNKNOWN + model
  }

  predicate NonNegative(u: Usage) {
    u.input >= 0 && u.output >= 0 && u.cacheCreation >= 0 && u.cacheRead >= 0
  }

  predicate NoTokens(u: Usage) {
    u.input == 0 && u.output == 0 && u.cacheCreation == 0 && u.cacheRead == 0
  }

  // ------------------------------------------------------------ what the table keeps

  /** Weight and dollar cost stay in step, for every rate in the table and every count. */
  lemma CostIsInStepWithWeight(model: string, u: Usage)
    ensures var m := Measure(model, u); m.costUSD * PER_MILLION == m.weighted * BASELINE_INPUT_USD
  {
    hide RateFor, CacheWriteUnits, PartsAt, Parts.Sum;
    if RateFor(model).Some? {
      RateForIsInStep(model);
      CostOf(RateFor(model).value, u);
    }
  }

  lemma RateForIsInStep(model: string)
    ensures RateFor(model).Some? ==>
              var r := RateFor(model).value;
              r.weight * BASELINE_INPUT_USD == r.inUSD && r.outUSD == OUTPUT_MULT * r.inUSD && r.weight > 0.0
  {
    hide FirstMatch, Lower, Trim;
    var i := FirstMatch(Lower(Trim(model)), RATES);
    if i < |RATES| {
      RateIsInStep(i);
    }
  }

  lemma RateIsInStep(i: nat)
    requires i < |RATES|
    ensures RATES[i].1.weight * BASELINE_INPUT_USD == RATES[i].1.inUSD
    ensures RATES[i].1.outUSD == OUTPUT_MULT * RATES[i].1.inUSD
    ensures RATES[i].1.weight > 0.0
  {
  }

  lemma CostOf(r: Rate, u: Usage)
    requires r.weight * BASELINE_INPUT_USD == r.inUSD && r.outUSD == OUTPUT_MULT * r.inUSD
    ensures (u.input as real / PER_MILLION * r.inUSD + u.output as real / PER_MILLION * r.outUSD
             + CacheWriteUnits(u) / PER_MILLION * r.inUSD
             + u.cacheRead as real / PER_MILLION * r.inUSD * CACHE_READ_MULT) * PER_MILLION
            == PartsAt(r, u).Sum() * BASELINE_INPUT_USD
  {
    var a, b, c, d, w := u.input as real, u.output as real, CacheWriteUnits(u), u.cacheRead as real, r.weight;
    assert r.inUSD == 3.0 * w && r.outUSD == 15.0 * w;
    assert PartsAt(r, u).Sum() == a * w + b * 5.0 * w + c * w + d * 0.1 * w;
    assert (a / PER_MILLION * (3.0 * w)) * PER_MILLION == 3.0 * (a * w);
    assert (b / PER_MILLION * (15.0 * w)) * PER_MILLION == 15.0 * (b * w);
    assert (c / PER_MILLION * (3.0 * w)) * PER_MILLION == 3.0 * (c * w);
    assert (d / PER_MILLION * (3.0 * w) * 0.1) * PER_MILLION == 0.3 * (d * w);
  }

  /** No model has two rates: the order of the table never decides anything. */
  lemma AtMostOneRateMatches(model: string, i: nat, j: nat)
    requires i < |RATES| && j < |RATES| && RATES[i].0 <= model && RATES[j].0 <= model
    ensures i == j
  {
    assert forall k :: 0 <= k < |RATES[i].0| && k < |RATES[j].0| ==> RATES[i].0[k] == RATES[j].0[k];
    if i != j {
      PrefixesDiffer(i, j);
    }
  }

  lemma PrefixesDiffer(i: nat, j: nat)
    requires i < |RATES| && j < |RATES| && i != j
    ensures var a, b := RATES[i].0, RATES[j].0; exists k :: 0 <= k < |a| && k < |b| && a[k] != b[k]
  {
    var a, b := RATES[i].0, RATES[j].0;
    if a[7] != b[7] {
    } else if i >= 3 && j >= 3 && i <= 5 && j <= 5 {
      assert a[14] != b[14];
    }
  }

  /** A model no rate is known for is stored under a label no rate is known for. */
  lemma LabelKeepsKnown(model: string)
    ensures RateFor(LabelOf(model)).Some? <==> RateFor(model).Some?
    ensures RateFor(model).Some? ==> RateFor(LabelOf(model)) == RateFor(model)
  {
    hide FirstMatch, Trim;
    if RateFor(model).None? {
      var stored := UNKNOWN + model;
      TrimKeepsFirst(stored);
      assert Lower(Trim(stored))[0] == 'u';
      EveryPrefixStartsWithC(Lower(Trim(stored)));
    }
  }

  lemma EveryPrefixStartsWithC(m: string)
    requires m != "" && m[0] == 'u'
    ensures FirstMatch(m, RATES) == |RATES|
  {
    hide FirstMatch;
    assert forall i :: 0 <= i < |RATES| ==> RATES[i].0 != "" && RATES[i].0[0] == 'c';
  }

  lemma TrimKeepsFirst(s: string)
    requires s != "" && !IsSpace(s[0])
    ensures Trim(s) != "" && Trim(s)[0] == s[0]
  {
    assert TrimLeft(s) == s;
    TrimRightKeepsFirst(s);
  }

  lemma {:induction false} TrimRightKeepsFirst(s: string)
    requires s != "" && !IsSpace(s[0])
    ensures TrimRight(s) != "" && TrimRight(s)[0] == s[0]
    decreases |s|
  {
    if IsSpace(s[|s| - 1]) {
      TrimRightKeepsFirst(s[..|s| - 1]);
    }
  }

  /** With counts that are not negative, a known model's parts vanish exactly when nothing was used. */
  lemma PartsVanishExactlyWhenUnused(model: string, u: Usage)
    requires NonNegative(u) && RateFor(model).Some?
    ensures var p := WeightedParts(model, u);
            && p.input >= 0.0 && p.output >= 0.0 && p.cacheCreation >= 0.0 && p.cacheRead >= 0.0
            && (p.Sum() <= 0.0 <==> NoTokens(u))
  {
    hide RateFor, CacheWriteUnits;
    RateForIsInStep(model);
    CacheWritesVanish(u);
    var w := RateFor(model).value.weight;
    ProductSign(u.input as real, w);
    ProductSign(u.output as real * OUTPUT_MULT, w);
    ProductSign(CacheWriteUnits(u), w);
    ProductSign(u.cacheRead as real * CACHE_READ_MULT, w);
  }

  lemma CacheWritesVanish(u: Usage)
    requires u.cacheCreation >= 0
    ensures CacheWriteUnits(u) >= 0.0 && (CacheWriteUnits(u) == 0.0 <==> u.cacheCreation == 0)
  {
    assert CacheWriteUnits(u) >= u.cacheCreation as real * CACHE_CREATION_MULT;
  }

  lemma ProductSign(x: real, w: real)
    requires x >= 0.0 && w > 0.0
    ensures x * w >= 0.0 && (x * w == 0.0 <==> x == 0.0)
  {
  }

  /**
    Each class is weighed by its own price, against three dollars a million: input and output
    at theirs, a cache read at a tenth of input, a cache write at one and a quarter of it for
    five minutes and at twice it for an hour.
   */
  lemma EachClassIsWeighedByItsPrice(model: string, u: Usage)
    requires RateFor(model).Some? && 0 <= u.cacheCreation1h <= u.cacheCreation
    ensures var r, p := RateFor(model).value, WeightedParts(model, u);
            && p.input * 3.0 == u.input as real * r.inUSD
            && p.output * 3.0 == u.output as real * r.outUSD
            && p.cacheRead * 3.0 == u.cacheRead as real * (r.inUSD * 0.1)
            && p.cacheCreation * 3.0
               == (u.cacheCreation - u.cacheCreation1h) as real * (r.inUSD * 1.25) + u.cacheCreation1h as real * (r.inUSD * 2.0)
  {
    hide RateFor;
    RateForIsInStep(model);
    var w := RateFor(model).value.weight;
    var a, b, c, d, e := u.input as real, u.output as real, (u.cacheCreation - u.cacheCreation1h) as real, u.cacheCreation1h as real, u.cacheRead as real;
    assert RateFor(model).value.inUSD == 3.0 * w && RateFor(model).value.outUSD == 15.0 * w;
    assert (c * 1.25 + d * 2.0) * w * 3.0 == c * (3.0 * w * 1.25) + d * (3.0 * w * 2.0);
    assert a * w * 3.0 == a * (3.0 * w) && b * 5.0 * w * 3.0 == b * (15.0 * w) && e * 0.1 * w * 3.0 == e * (3.0 * w * 0.1);
  }

  /** A part of the writes said to be kept an hour that is out of range counts as none, or as all of them. */
  lemma AnHourPartOutOfRange(u: Usage)
    ensures u.cacheCreation1h < 0 && 0 <= u.cacheCreation ==> CacheWriteUnits(u) == u.cacheCreation as real * 1.25
    ensures 0 <= u.cacheCreation < u.cacheCreation1h ==> CacheWriteUnits(u) == u.cacheCreation as real * 2.0
  {
  }
}
