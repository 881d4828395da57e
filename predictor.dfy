/** `generatePrediction()` of the predictor script. It takes the newest
    `RECENT_MAX` values, weighs them by recency, and sorts them into three
    buckets: azul below 2, lilas from 2 up to 10, vermelho from 10. It picks
    the bucket by weight with a 5% margin in favour of lilas, estimates a
    base value from a weighted quantile of that bucket (with fall-backs
    when a quantile is missing or zero), scales the base by a small jitter
    damped by a safety factor from the measured precision, and clamps the
    result to `[MIN_VAL, MAX_VAL]`.

    Values are in hundredths, so the bucket limits 2 and 10 are 200 and 1000
    and the last fall-back 2.5 is 250. `Math.random()` is the parameter
    `rand`, a number in `[0, 1)`. */
module Predictor {
  import opened Common
  import opened Quantile
  import opened Recency

  /** TARGET_PRECISION: the precision the safety factor steers towards. */
  const TARGET_PRECISION: real := 0.97
  /** The bucket limits 2 and 10, in hundredths. */
  const AZUL_BELOW: int := 200
  const LILAS_BELOW: int := 1000
  /** The last fall-back of the base estimate, 2.5, in hundredths. */
  const FALLBACK_BASE: int := 250

  datatype Bucket = Azul | Lilas | Vermelho

  /** The `stats` counters. */
  datatype Stats = Stats(total: nat, right: nat, wrong: nat)

  /** What `generatePrediction` returns: a value in hundredths and a bucket. */
  datatype Prediction = Prediction(value: int, category: Bucket)

  /** The bucket a value falls into. */
  function BucketOf(v: int): Bucket {
    if v < AZUL_BELOW then Azul else if v < LILAS_BELOW then Lilas else Vermelho
  }

  /** The pairs of one bucket, in window order (`valsAzul`, `valsLilas`,
      `valsVerm`). */
  function InBucket(items: seq<Item>, b: Bucket): (r: seq<Item>)
    ensures |r| <= |items|
    ensures forall i | 0 <= i < |r| :: BucketOf(r[i].v) == b
    ensures Positive(items) ==> Positive(r)
  {
    if |items| == 0 then []
    else
      var last := items[|items| - 1];
      InBucket(items[..|items| - 1], b) + (if BucketOf(last.v) == b then [last] else [])
  }

  /** The pick of the bucket from the three weight sums; lilas wins unless
      another bucket beats it by 5% and also beats the third bucket. */
  function Choose(sumAz: real, sumLi: real, sumVe: real): (r: Bucket)
    ensures r == Vermelho <==> sumVe > sumLi * 1.05 && sumVe > sumAz
    ensures r == Azul <==> sumAz > sumLi * 1.05 && sumAz > sumVe
  {
    if sumVe > sumLi * 1.05 && sumVe > sumAz then Vermelho
    else if sumAz > sumLi * 1.05 && sumAz > sumVe then Azul
    else Lilas
  }

  /** A falsy quantile in JavaScript: `null` or `0`. */
  predicate Falsy(x: Option<int>) {
    x.None? || x.value == 0
  }

  /** `a || b` on quantile results. */
  function Or(a: Option<int>, b: Option<int>): (r: Option<int>)
    ensures r == a || r == b
    ensures !Falsy(a) ==> r == a
    ensures Falsy(a) ==> r == b
  {
    if Falsy(a) then b else a
  }

  /** `wqFromArr(arr, q)`: the quantile of one bucket. */
  function BucketQuantile(arr: seq<Item>, q: real): Option<int> {
    Quantile.Quantile(ValuesOf(arr), WeightsOf(arr), q)
  }

  /** The pairs of the window with their recency weights. */
  function Pairs(recent: seq<int>): seq<Item> {
    Items(recent, Weights(|recent|, DEFAULT_DECAY))
  }

  /** The `base` of `generatePrediction` for the chosen bucket, after the
      first fall-back (the maximum, or a quantile of the whole window) and
      the second (a quantile of the whole window, else 2.5). */
  function BaseEstimate(recent: seq<int>, chosen: Bucket): (base: int)
    requires |recent| > 0
  {
    var first := FirstEstimate(recent, chosen);
    if !Falsy(first) then first.value
    else Or(Quantile.Quantile(recent, Weights(|recent|, DEFAULT_DECAY), 0.6), Some(FALLBACK_BASE)).value
  }

  /** The estimate for the chosen bucket with its first fall-back: the
      maximum of the window for vermelho, a quantile of the whole window
      otherwise. */
  function FirstEstimate(recent: seq<int>, chosen: Bucket): Option<int>
    requires |recent| > 0
  {
    var items := Pairs(recent);
    var ws := Weights(|recent|, DEFAULT_DECAY);
    match chosen
    case Vermelho => Or(BucketQuantile(InBucket(items, Vermelho), 0.75), Some(MaxOf(recent)))
    case Lilas => Or(BucketQuantile(InBucket(items, Lilas), 0.6), Quantile.Quantile(recent, ws, 0.6))
    case Azul => Or(BucketQuantile(InBucket(items, Azul), 0.5), Quantile.Quantile(recent, ws, 0.45))
  }

  /** `measuredPrec`: right answers per generated prediction, or the target
      before any prediction. */
  function MeasuredPrecision(stats: Stats): (p: real)
    ensures stats.right <= stats.total ==> 0.0 <= p <= 1.0
    ensures stats.total == 0 ==> p == TARGET_PRECISION
    ensures stats.total > 0 ==> p * stats.total as real == stats.right as real
  {
    if stats.total > 0 then stats.right as real / stats.total as real else TARGET_PRECISION
  }

  /** `safetyFactor`: above 1 when the measured precision is below target. */
  function SafetyFactor(prec: real): (f: real)
    ensures 0.5 <= f <= 3.0
  {
    Clamp(1.0 + (TARGET_PRECISION - prec) * 2.5, 0.5, 3.0)
  }

  /** `jitterPct`: the jitter magnitude, smaller for a larger safety factor. */
  function JitterPct(prec: real): real {
    0.02 / SafetyFactor(prec)
  }

  /** `jitter` for `Math.random()` returning `rand`. */
  function Jitter(prec: real, rand: real): real {
    (rand * 2.0 - 1.0) * JitterPct(prec)
  }

  /** `base * (1 + jitter)` */
  function Jittered(x: real, j: real): real {
    x * (1.0 + j)
  }

  /** `predicted`, before the rounding to hundredths. */
  function Predicted(base: int, prec: real, rand: real): (x: real)
    ensures MIN_VAL <= x <= MAX_VAL
  {
    Clamp(Jittered(base as real / 100.0, Jitter(prec, rand)), MIN_VAL, MAX_VAL)
  }

  /** The bucket `generatePrediction` picks for the window `recent`. */
  function Chosen(recent: seq<int>): Bucket {
    var items := Pairs(recent);
    Choose(Mass(InBucket(items, Azul)), Mass(InBucket(items, Lilas)), Mass(InBucket(items, Vermelho)))
  }

  /** What `generatePrediction()` returns for the value log `values`, the
      counters `stats` and `Math.random()` returning `rand`. */
  function PredictionOf(values: seq<int>, stats: Stats, rand: real): (r: Option<Prediction>)
    ensures r.None? <==> |values| == 0
    ensures r.Some? ==> MIN_HUNDREDTHS <= r.value.value <= MAX_HUNDREDTHS
  {
    var recent := Keep(values, RECENT_MAX);
    if |recent| == 0 then None
    else
      var chosen := Chosen(recent);
      var base := BaseEstimate(recent, chosen);
      Some(Prediction(ToHundredths(Predicted(base, MeasuredPrecision(stats), rand)), chosen))
  }

  // ---------------------------------------------------------------------
  // The method

  /** `generatePrediction()` */
  method GeneratePrediction(values: seq<int>, stats: Stats, rand: real) returns (pred: Option<Prediction>)
    ensures pred == PredictionOf(values, stats, rand)
  {
    var recent := if |values| <= RECENT_MAX then values else values[|values| - RECENT_MAX..];
    assert recent == Keep(values, RECENT_MAX);
    if |recent| == 0 {
      return None;
    }
    var n := |recent|;
    var weights := RecencyWeights(n, DEFAULT_DECAY);
    var valsAzul, valsLilas, valsVerm, sumAz, sumLi, sumVe := SplitBuckets(recent, weights);

    var chosen := Lilas;
    if sumVe > sumLi * 1.05 && sumVe > sumAz {
      chosen := Vermelho;
    } else if sumAz > sumLi * 1.05 && sumAz > sumVe {
      chosen := Azul;
    } else {
      chosen := Lilas;
    }

    assert chosen == Chosen(recent);
    var base := EstimateBase(recent, weights, chosen, valsAzul, valsLilas, valsVerm);

    // measuredPrec, safetyFactor, jitterPct, jitter and the clamp, then
    // Number(predicted.toFixed(2))
    var predicted := Predicted(base, MeasuredPrecision(stats), rand);
    pred := Some(Prediction(ToHundredths(predicted), chosen));
  }

  /** The loop of `generatePrediction` that sorts the window into the three
      bucket lists and sums the weight of each. */
  method SplitBuckets(recent: seq<int>, weights: seq<real>)
    returns (valsAzul: seq<Item>, valsLilas: seq<Item>, valsVerm: seq<Item>, sumAz: real, sumLi: real, sumVe: real)
    requires |weights| == |recent|
    ensures valsAzul == InBucket(Items(recent, weights), Azul) && sumAz == Mass(valsAzul)
    ensures valsLilas == InBucket(Items(recent, weights), Lilas) && sumLi == Mass(valsLilas)
    ensures valsVerm == InBucket(Items(recent, weights), Vermelho) && sumVe == Mass(valsVerm)
  {
    ghost var items := Items(recent, weights);
    valsAzul, valsLilas, valsVerm := [], [], [];
    sumAz, sumLi, sumVe := 0.0, 0.0, 0.0;
    for i := 0 to |recent|
      invariant valsAzul == InPrefix(items, i, Azul) && sumAz == Mass(valsAzul)
      invariant valsLilas == InPrefix(items, i, Lilas) && sumLi == Mass(valsLilas)
      invariant valsVerm == InPrefix(items, i, Vermelho) && sumVe == Mass(valsVerm)
    {
      var v := recent[i];
      var w := if weights[i] != 0.0 then weights[i] else 1.0;
      assert items[i] == Item(v, w);
      if v < AZUL_BELOW {
        MassPush(valsAzul, Item(v, w));
        sumAz := sumAz + w;
        valsAzul := valsAzul + [Item(v, w)];
      } else if v < LILAS_BELOW {
        MassPush(valsLilas, Item(v, w));
        sumLi := sumLi + w;
        valsLilas := valsLilas + [Item(v, w)];
      } else {
        MassPush(valsVerm, Item(v, w));
        sumVe := sumVe + w;
        valsVerm := valsVerm + [Item(v, w)];
      }
    }
    InPrefixOfAll(items, Azul);
    InPrefixOfAll(items, Lilas);
    InPrefixOfAll(items, Vermelho);
  }

  /** The pairs of one bucket among the first `n` pairs. */
  ghost function InPrefix(items: seq<Item>, n: nat, b: Bucket): seq<Item>
    requires n <= |items|
  {
    if n == 0 then []
    else InPrefix(items, n - 1, b) + (if BucketOf(items[n - 1].v) == b then [items[n - 1]] else [])
  }

  lemma {:induction false} InPrefixIsInBucket(items: seq<Item>, n: nat, b: Bucket)
    requires n <= |items|
    ensures InPrefix(items, n, b) == InBucket(items[..n], b)
  {
    if n > 0 {
      InPrefixIsInBucket(items, n - 1, b);
      assert items[..n][..n - 1] == items[..n - 1];
    }
  }

  lemma InPrefixOfAll(items: seq<Item>, b: Bucket)
    ensures InPrefix(items, |items|, b) == InBucket(items, b)
  {
    InPrefixIsInBucket(items, |items|, b);
    assert items[..|items|] == items;
  }

  /** The computation of `base` in `generatePrediction`, with its two rounds
      of fall-backs. */
  method EstimateBase(recent: seq<int>, weights: seq<real>, chosen: Bucket,
                      valsAzul: seq<Item>, valsLilas: seq<Item>, valsVerm: seq<Item>) returns (base: int)
    requires |recent| > 0 && weights == Weights(|recent|, DEFAULT_DECAY)
    requires valsAzul == InBucket(Pairs(recent), Azul)
    requires valsLilas == InBucket(Pairs(recent), Lilas)
    requires valsVerm == InBucket(Pairs(recent), Vermelho)
    ensures base == BaseEstimate(recent, chosen)
  {
    WeightsBounded(|recent|, DEFAULT_DECAY);
    assert NonNegative(weights);
    var b: Option<int>;
    if chosen == Vermelho {
      b := WqFromArr(valsVerm, 0.75);
      if Falsy(b) {
        b := Some(MaxOf(recent));
      }
    } else if chosen == Lilas {
      b := WqFromArr(valsLilas, 0.6);
      if Falsy(b) {
        b := WeightedQuantile(recent, weights, 0.6);
      }
    } else {
      b := WqFromArr(valsAzul, 0.5);
      if Falsy(b) {
        b := WeightedQuantile(recent, weights, 0.45);
      }
    }
    if Falsy(b) {
      b := WeightedQuantile(recent, weights, 0.6);
      if Falsy(b) {
        b := Some(FALLBACK_BASE);
      }
    }
    base := b.value;
  }

  /** `wqFromArr(arr, q)` */
  method WqFromArr(arr: seq<Item>, q: real) returns (r: Option<int>)
    requires Positive(arr)
    ensures r == BucketQuantile(arr, q)
  {
    if |arr| == 0 {
      return None;
    }
    r := WeightedQuantile(ValuesOf(arr), WeightsOf(arr), q);
  }

  // ---------------------------------------------------------------------
  // Properties

  /** Every pair of the window lands in exactly one bucket: the three bucket
      lists together hold the pairs of the window, each once. */
  lemma {:induction false} BucketsPartition(items: seq<Item>)
    ensures multiset(InBucket(items, Azul)) + multiset(InBucket(items, Lilas)) + multiset(InBucket(items, Vermelho))
      == multiset(items)
  {
    if |items| > 0 {
      var rest, last := items[..|items| - 1], items[|items| - 1];
      assert items == rest + [last];
      BucketsPartition(rest);
      MultisetOfBucket(items, Azul);
      MultisetOfBucket(items, Lilas);
      MultisetOfBucket(items, Vermelho);
    }
  }

  lemma MultisetOfBucket(items: seq<Item>, c: Bucket)
    requires |items| > 0
    ensures multiset(InBucket(items, c)) == multiset(InBucket(items[..|items| - 1], c))
      + (if BucketOf(items[|items| - 1].v) == c then multiset{items[|items| - 1]} else multiset{})
  {
  }

  /** The three sums add up to the total weight of the window. */
  lemma {:induction false} BucketSumsAddUp(items: seq<Item>)
    ensures Mass(InBucket(items, Azul)) + Mass(InBucket(items, Lilas)) + Mass(InBucket(items, Vermelho)) == Mass(items)
  {
    if |items| > 0 {
      var rest, last := items[..|items| - 1], items[|items| - 1];
      BucketSumsAddUp(rest);
      MassOfBucket(items, Azul);
      MassOfBucket(items, Lilas);
      MassOfBucket(items, Vermelho);
    }
  }

  lemma MassOfBucket(items: seq<Item>, c: Bucket)
    requires |items| > 0
    ensures Mass(InBucket(items, c)) == Mass(InBucket(items[..|items| - 1], c))
      + (if BucketOf(items[|items| - 1].v) == c then items[|items| - 1].w else 0.0)
  {
    if BucketOf(items[|items| - 1].v) == c {
      MassPush(InBucket(items[..|items| - 1], c), items[|items| - 1]);
    } else {
      var r := InBucket(items[..|items| - 1], c);
      assert InBucket(items, c) == r + [];
      assert r + [] == r;
    }
  }

  /** One more pair of the window joins its own bucket list only. */
  lemma InBucketStep(items: seq<Item>, k: nat, c: Bucket)
    requires k < |items|
    ensures BucketOf(items[k].v) == c ==> InBucket(items[..k + 1], c) == InBucket(items[..k], c) + [items[k]]
    ensures BucketOf(items[k].v) != c ==> InBucket(items[..k + 1], c) == InBucket(items[..k], c)
  {
    assert items[..k + 1][..k] == items[..k];
    var r := InBucket(items[..k], c);
    assert r + [] == r;
  }

  lemma MassPush(s: seq<Item>, x: Item)
    ensures Mass(s + [x]) == Mass(s) + x.w
  {
    assert (s + [x])[..|s|] == s;
  }

  /** The vermelho and the azul conditions never hold together. */
  lemma ChoiceConditionsExclusive(sumAz: real, sumLi: real, sumVe: real)
    ensures !((sumVe > sumLi * 1.05 && sumVe > sumAz) && (sumAz > sumLi * 1.05 && sumAz > sumVe))
  {
  }

  /** A bucket other than lilas is chosen only when it is strictly the
      heaviest of the three. */
  lemma ChosenIsHeaviest(sumAz: real, sumLi: real, sumVe: real)
    requires sumLi >= 0.0
    ensures Choose(sumAz, sumLi, sumVe) == Vermelho ==> sumVe > sumLi && sumVe > sumAz
    ensures Choose(sumAz, sumLi, sumVe) == Azul ==> sumAz > sumLi && sumAz > sumVe
  {
  }

  /** When azul and vermelho weigh the same, neither can win, so lilas is
      chosen even when it is the lightest of the three. */
  lemma TieGoesToLilas(sumOther: real, sumLi: real)
    ensures Choose(sumOther, sumLi, sumOther) == Lilas
  {
  }

  /** A bucket other than lilas is chosen only when it holds more than a
      third of the weight of the window. */
  lemma ChosenCarriesAThird(recent: seq<int>)
    requires |recent| > 0
    ensures Chosen(recent) == Vermelho ==> 3.0 * Mass(InBucket(Pairs(recent), Vermelho)) > Mass(Pairs(recent))
    ensures Chosen(recent) == Azul ==> 3.0 * Mass(InBucket(Pairs(recent), Azul)) > Mass(Pairs(recent))
  {
    var items := Pairs(recent);
    WeightsBounded(|recent|, DEFAULT_DECAY);
    assert NonNegative(Weights(|recent|, DEFAULT_DECAY));
    BucketSumsAddUp(items);
    var li := InBucket(items, Lilas);
    MassAtMostBounds(li, 0);
    ChosenIsHeaviest(Mass(InBucket(items, Azul)), Mass(li), Mass(InBucket(items, Vermelho)));
  }

  /** Every pair of a bucket's list is a pair of the window. */
  lemma {:induction false} InBucketFrom(items: seq<Item>, c: Bucket, j: nat)
    requires j < |InBucket(items, c)|
    ensures exists k | 0 <= k < |items| :: items[k] == InBucket(items, c)[j]
  {
    var init := items[..|items| - 1];
    var r := InBucket(init, c);
    if j < |r| {
      InBucketFrom(init, c, j);
      var k :| 0 <= k < |init| && init[k] == r[j];
      assert items[k] == InBucket(items, c)[j];
    } else {
      assert items[|items| - 1] == InBucket(items, c)[j];
    }
  }

  /** A value of a bucket's list is a value of the window. */
  lemma BucketValueInWindow(recent: seq<int>, c: Bucket, x: int)
    requires x in ValuesOf(InBucket(Pairs(recent), c))
    ensures x in recent
  {
    var items := Pairs(recent);
    var b := InBucket(items, c);
    var j :| 0 <= j < |b| && ValuesOf(b)[j] == x;
    InBucketFrom(items, c, j);
    var k :| 0 <= k < |items| && items[k] == b[j];
    assert recent[k] == x;
  }

  /** The base is never zero, and it is one of the window's values unless
      every quantile failed and the fall-back 2.5 was taken. */
  lemma BaseFromWindow(recent: seq<int>, chosen: Bucket)
    requires |recent| > 0
    ensures BaseEstimate(recent, chosen) != 0
    ensures BaseEstimate(recent, chosen) == FALLBACK_BASE || BaseEstimate(recent, chosen) in recent
  {
    var first := FirstEstimate(recent, chosen);
    FirstFromWindow(recent, chosen);
    assert BaseEstimate(recent, chosen) == (if !Falsy(first) then first.value
      else Or(Quantile.Quantile(recent, Weights(|recent|, DEFAULT_DECAY), 0.6), Some(FALLBACK_BASE)).value);
  }

  /** The first estimate is missing or a value of the window. */
  lemma FirstFromWindow(recent: seq<int>, chosen: Bucket)
    requires |recent| > 0
    ensures FirstEstimate(recent, chosen).Some? ==> FirstEstimate(recent, chosen).value in recent
  {
    var q := match chosen case Vermelho => 0.75 case Lilas => 0.6 case Azul => 0.5;
    var b := BucketQuantile(InBucket(Pairs(recent), chosen), q);
    if b.Some? {
      BucketValueInWindow(recent, chosen, b.value);
    }
  }

  /** Clamping keeps the order of two values. */
  lemma ClampMonotone(v1: real, v2: real, a: real, b: real)
    requires a <= b && v1 <= v2
    ensures Clamp(v1, a, b) <= Clamp(v2, a, b)
  {
  }

  /** A lower measured precision never gives a smaller safety factor. */
  lemma SafetyFactorAntitone(p1: real, p2: real)
    requires p1 <= p2
    ensures SafetyFactor(p2) <= SafetyFactor(p1)
  {
    ClampMonotone(1.0 + (TARGET_PRECISION - p2) * 2.5, 1.0 + (TARGET_PRECISION - p1) * 2.5, 0.5, 3.0);
  }

  /** Before any prediction, and whenever the measured precision equals the
      target, the safety factor is neutral and the jitter is 2%. */
  lemma NeutralAtTarget(stats: Stats)
    requires stats.total == 0 || stats.right as real == TARGET_PRECISION * stats.total as real
    ensures SafetyFactor(MeasuredPrecision(stats)) == 1.0
    ensures JitterPct(MeasuredPrecision(stats)) == 0.02
  {
    if stats.total > 0 {
      QuotientOfProduct(TARGET_PRECISION, stats.total as real);
    }
  }

  lemma QuotientOfProduct(x: real, y: real)
    requires y > 0.0
    ensures (x * y) / y == x
  {
  }

  lemma DivideBounds(x: real, f: real, lo: real, hi: real)
    requires 0.0 <= x && 0.0 < lo <= f <= hi
    ensures x / hi <= x / f <= x / lo
  {
  }

  /** The jitter magnitude lies between 2%/3 and 4%. */
  lemma JitterPctBounds(prec: real)
    ensures 0.02 / 3.0 <= JitterPct(prec) <= 0.04
  {
    DivideBounds(0.02, SafetyFactor(prec), 0.5, 3.0);
  }

  /** A higher measured precision never gives a smaller jitter. */
  lemma JitterPctMonotone(p1: real, p2: real)
    requires p1 <= p2
    ensures JitterPct(p1) <= JitterPct(p2)
  {
    SafetyFactorAntitone(p1, p2);
    DivideBounds(0.02, SafetyFactor(p2), SafetyFactor(p2), SafetyFactor(p1));
  }

  lemma ScaleWithin(t: real, p: real)
    requires -1.0 <= t <= 1.0 && p >= 0.0
    ensures -p <= t * p <= p
  {
  }

  /** For `Math.random()` in `[0, 1]` the jitter is at most `jitterPct` in
      either direction. */
  lemma JitterBounded(prec: real, rand: real)
    requires 0.0 <= rand <= 1.0
    ensures -JitterPct(prec) <= Jitter(prec, rand) <= JitterPct(prec)
  {
    JitterPctBounds(prec);
    ScaleWithin(rand * 2.0 - 1.0, JitterPct(prec));
  }

  /** The prediction moves the base by at most `jitterPct` either way
      before the clamp to `[MIN_VAL, MAX_VAL]`. */
  lemma PredictedNearBase(base: int, prec: real, rand: real)
    requires base >= 0 && 0.0 <= rand <= 1.0
    ensures Clamp(Jittered(base as real / 100.0, -JitterPct(prec)), MIN_VAL, MAX_VAL) <= Predicted(base, prec, rand)
    ensures Predicted(base, prec, rand) <= Clamp(Jittered(base as real / 100.0, JitterPct(prec)), MIN_VAL, MAX_VAL)
  {
    JitterBounded(prec, rand);
    ClampScaled(base as real / 100.0, Jitter(prec, rand), JitterPct(prec));
  }

  lemma ClampScaled(x: real, j: real, p: real)
    requires x >= 0.0 && -p <= j <= p
    ensures Clamp(Jittered(x, -p), MIN_VAL, MAX_VAL) <= Clamp(Jittered(x, j), MIN_VAL, MAX_VAL)
    ensures Clamp(Jittered(x, j), MIN_VAL, MAX_VAL) <= Clamp(Jittered(x, p), MIN_VAL, MAX_VAL)
  {
    var lo, mid, hi := Jittered(x, -p), Jittered(x, j), Jittered(x, p);
    JitteredMonotone(x, -p, j);
    JitteredMonotone(x, j, p);
    ClampMonotone(lo, mid, MIN_VAL, MAX_VAL);
    ClampMonotone(mid, hi, MIN_VAL, MAX_VAL);
  }

  /** A larger jitter gives a larger value. */
  lemma JitteredMonotone(x: real, j1: real, j2: real)
    requires x >= 0.0 && j1 <= j2
    ensures Jittered(x, j1) <= Jittered(x, j2)
  {
    ScaleMonotone(x, j1, j2);
    assert Jittered(x, j1) == x + j1 * x;
    assert Jittered(x, j2) == x + j2 * x;
  }

  /** `Math.random()` returning one half means no jitter: a base within
      `[MIN_VAL, MAX_VAL]` comes back unchanged. */
  lemma NoJitterAtMidpoint(base: int, prec: real)
    requires MIN_HUNDREDTHS <= base <= MAX_HUNDREDTHS
    ensures ToHundredths(Predicted(base, prec, 0.5)) == base
  {
    var x := base as real / 100.0;
    assert Jitter(prec, 0.5) == 0.0;
    assert Jittered(x, 0.0) == x;
    assert 100.0 * x == base as real;
  }

  /** A prediction looks at the newest `RECENT_MAX` values only. */
  lemma PredictionUsesWindowOnly(older: seq<int>, values: seq<int>, stats: Stats, rand: real)
    requires |values| >= RECENT_MAX
    ensures PredictionOf(older + values, stats, rand) == PredictionOf(values, stats, rand)
  {
    KeepIgnoresOlder(older, values, RECENT_MAX);
  }

  /** The wrong-answer counter plays no part in a prediction. */
  lemma PredictionIgnoresWrong(values: seq<int>, s1: Stats, s2: Stats, rand: real)
    requires s1.total == s2.total && s1.right == s2.right
    ensures PredictionOf(values, s1, rand) == PredictionOf(values, s2, rand)
  {
  }
}
