/** `weightedQuantile(values, weights, q)` of the predictor script: pair each
    value with its weight, sort the pairs by value, walk them while summing
    the weights, and return the first value at which the running share of
    the total weight reaches `q`; the largest value if the walk ends first;
    `null` on an empty list.

    The specification is order-free: the result is the least value `u` of
    the list such that the weight of all entries `<= u` is at least the
    threshold `q` times the total weight (`IsQuantileAt`, `QuantileAt`,
    `QuantileOf`). The method proves that sorting and walking computes
    exactly that. The threshold is kept as a number of its own (the share
    `q` times the total) so that the reasoning about it stays linear. */
module Quantile {
  import opened Common

  /** One `{v, w}` pair: a value in hundredths and its weight. */
  datatype Item = Item(v: int, w: real)

  predicate NonNegative(ws: seq<real>) {
    forall i | 0 <= i < |ws| :: ws[i] >= 0.0
  }

  ghost predicate Positive(items: seq<Item>) {
    forall i | 0 <= i < |items| :: items[i].w > 0.0
  }

  ghost predicate SortedByValue(s: seq<Item>) {
    forall i, j | 0 <= i < j < |s| :: s[i].v <= s[j].v
  }

  /** `u` is the value of one of `items[from..]`. */
  ghost predicate HasValueFrom(items: seq<Item>, from: nat, u: int) {
    exists i | from <= i < |items| :: items[i].v == u
  }

  /** `u` is one of the values of `items`. */
  ghost predicate HasValue(items: seq<Item>, u: int) {
    HasValueFrom(items, 0, u)
  }

  /** `weights[i] || 1`: a missing or zero weight counts as 1. */
  function EffectiveWeight(weights: seq<real>, i: nat): (w: real)
    ensures NonNegative(weights) ==> w > 0.0
    ensures i < |weights| && weights[i] != 0.0 ==> w == weights[i]
  {
    if i < |weights| && weights[i] != 0.0 then weights[i] else 1.0
  }

  /** `values.map((v, i) => ({v, w: weights[i] || 1}))` */
  function Items(values: seq<int>, weights: seq<real>): (items: seq<Item>)
    ensures |items| == |values|
    ensures forall i | 0 <= i < |items| :: items[i].v == values[i]
    ensures forall i | 0 <= i < |items| :: items[i].w == EffectiveWeight(weights, i)
    ensures NonNegative(weights) ==> Positive(items)
  {
    seq(|values|, i requires 0 <= i < |values| => Item(values[i], EffectiveWeight(weights, i)))
  }

  /** The value list of some pairs, `arr.map(x => x.v)`. */
  function ValuesOf(items: seq<Item>): (vs: seq<int>)
    ensures |vs| == |items| && forall i | 0 <= i < |items| :: vs[i] == items[i].v
  {
    seq(|items|, i requires 0 <= i < |items| => items[i].v)
  }

  /** The weight list of some pairs, `arr.map(x => x.w)`. */
  function WeightsOf(items: seq<Item>): (ws: seq<real>)
    ensures |ws| == |items| && forall i | 0 <= i < |items| :: ws[i] == items[i].w
  {
    seq(|items|, i requires 0 <= i < |items| => items[i].w)
  }

  /** Total weight, summed front to back like `items.reduce((s, x) => s + x.w, 0)`. */
  function Mass(items: seq<Item>): real {
    if |items| == 0 then 0.0 else Mass(items[..|items| - 1]) + items[|items| - 1].w
  }

  /** Weight of the entries whose value is at most `u`. */
  function MassAtMost(items: seq<Item>, u: int): real {
    if |items| == 0 then 0.0
    else
      var last := items[|items| - 1];
      MassAtMost(items[..|items| - 1], u) + (if last.v <= u then last.w else 0.0)
  }

  /** The largest value of a non-empty list of pairs. */
  function MaxValue(items: seq<Item>): (m: int)
    requires |items| > 0
    ensures HasValue(items, m)
    ensures forall i | 0 <= i < |items| :: items[i].v <= m
  {
    if |items| == 1 then items[0].v
    else
      var rest := MaxValue(items[1..]);
      if items[0].v > rest then items[0].v else rest
  }

  /** `r` is the weighted quantile of `items` for weight threshold `thr`: a
      value of the list, every smaller value of the list falls short of the
      threshold, and `r` itself reaches it unless no value does, in which
      case `r` is the maximum. */
  ghost predicate IsQuantileAt(items: seq<Item>, thr: real, r: int) {
    && HasValue(items, r)
    && (forall u | HasValue(items, u) && u < r :: MassAtMost(items, u) < thr)
    && (MassAtMost(items, r) >= thr || forall i | 0 <= i < |items| :: items[i].v <= r)
  }

  lemma HasValueFromStep(items: seq<Item>, from: nat)
    requires from < |items|
    ensures forall u :: HasValueFrom(items, from, u) <==> items[from].v == u || HasValueFrom(items, from + 1, u)
  {
    forall u | HasValueFrom(items, from, u) ensures items[from].v == u || HasValueFrom(items, from + 1, u) {
      var i :| from <= i < |items| && items[i].v == u;
      if i > from {
        assert from + 1 <= i;
      }
    }
  }

  /** The least value of `all[from..]` whose mass-at-most in `all` reaches `thr`. */
  function LeastReaching(all: seq<Item>, from: nat, thr: real): (r: Option<int>)
    requires from <= |all|
    ensures r.Some? ==> HasValueFrom(all, from, r.value) && MassAtMost(all, r.value) >= thr
    ensures r.Some? ==> forall u | HasValueFrom(all, from, u) && MassAtMost(all, u) >= thr :: r.value <= u
    ensures r.None? ==> forall u | HasValueFrom(all, from, u) :: MassAtMost(all, u) < thr
    decreases |all| - from
  {
    if from == |all| then None
    else
      var x := all[from];
      var best := LeastReaching(all, from + 1, thr);
      HasValueFromStep(all, from);
      if MassAtMost(all, x.v) < thr then best
      else if best.Some? && best.value <= x.v then best
      else Some(x.v)
  }

  /** The reference weighted quantile of a non-empty list for threshold `thr`. */
  function QuantileAt(items: seq<Item>, thr: real): (r: int)
    requires |items| > 0
    ensures IsQuantileAt(items, thr, r)
  {
    match LeastReaching(items, 0, thr)
    case Some(v) => v
    case None => MaxValue(items)
  }

  /** The weighted `q`-quantile: the threshold is share `q` of the total weight. */
  function Threshold(items: seq<Item>, q: real): real {
    q * Mass(items)
  }

  function QuantileOf(items: seq<Item>, q: real): int
    requires |items| > 0
  {
    QuantileAt(items, Threshold(items, q))
  }

  /** What `weightedQuantile(values, weights, q)` returns. */
  function Quantile(values: seq<int>, weights: seq<real>, q: real): (r: Option<int>)
    ensures r.None? <==> |values| == 0
    ensures r.Some? ==> r.value in values
  {
    if |values| == 0 then None
    else
      var items := Items(values, weights);
      Some(QuantileOf(items, q))
  }

  // ---------------------------------------------------------------------
  // Sums over lists of pairs

  lemma {:induction false} MassAtMostAppend(a: seq<Item>, b: seq<Item>, u: int)
    ensures MassAtMost(a + b, u) == MassAtMost(a, u) + MassAtMost(b, u)
    decreases |b|
  {
    if |b| > 0 {
      assert (a + b)[..|a + b| - 1] == a + b[..|b| - 1];
      MassAtMostAppend(a, b[..|b| - 1], u);
    } else {
      assert a + b == a;
    }
  }

  lemma {:induction false} MassAtMostBounds(items: seq<Item>, u: int)
    requires Positive(items)
    ensures 0.0 <= MassAtMost(items, u) <= Mass(items)
  {
    if |items| > 0 {
      MassAtMostBounds(items[..|items| - 1], u);
    }
  }

  /** A non-empty list of positive weights has a positive total. */
  lemma {:induction false} MassPositive(items: seq<Item>)
    requires Positive(items) && |items| > 0
    ensures Mass(items) > 0.0
  {
    MassAtMostBounds(items[..|items| - 1], 0);
  }

  /** When every value is at most `u`, all the weight is counted. */
  lemma {:induction false} MassAtMostAll(items: seq<Item>, u: int)
    requires forall i | 0 <= i < |items| :: items[i].v <= u
    ensures MassAtMost(items, u) == Mass(items)
  {
    if |items| > 0 {
      MassAtMostAll(items[..|items| - 1], u);
    }
  }

  /** When every value exceeds `u`, nothing is counted. */
  lemma {:induction false} MassAtMostNone(items: seq<Item>, u: int)
    requires forall i | 0 <= i < |items| :: items[i].v > u
    ensures MassAtMost(items, u) == 0.0
  {
    if |items| > 0 {
      MassAtMostNone(items[..|items| - 1], u);
    }
  }

  /** Taking entry `j` out of a list takes its weight out of the count. */
  lemma MassAtMostRemove(b: seq<Item>, j: nat, u: int)
    requires j < |b|
    ensures MassAtMost(b, u) == MassAtMost(b[..j] + b[j + 1..], u) + (if b[j].v <= u then b[j].w else 0.0)
  {
    var b1, x, b2 := b[..j], b[j], b[j + 1..];
    assert b == b1 + [x] + b2;
    MassAtMostAppend(b1 + [x], b2, u);
    MassAtMostAppend(b1, [x], u);
    MassAtMostAppend(b1, b2, u);
    assert [x][..0] == [];
  }

  lemma MultisetRemove(b: seq<Item>, j: nat)
    requires j < |b|
    ensures multiset(b[..j] + b[j + 1..]) == multiset(b) - multiset{b[j]}
  {
    assert b == b[..j] + [b[j]] + b[j + 1..];
  }

  /** The counted weight does not depend on the order of the pairs. */
  lemma {:induction false} MassAtMostPermutation(a: seq<Item>, b: seq<Item>, u: int)
    requires multiset(a) == multiset(b)
    ensures MassAtMost(a, u) == MassAtMost(b, u)
    decreases |a|
  {
    if |a| == 0 {
      assert |b| == |multiset(b)| == 0;
    } else {
      var x, rest := a[|a| - 1], a[..|a| - 1];
      assert a == rest + [x];
      assert multiset(rest) == multiset(a) - multiset{x};
      assert x in multiset(b);
      var j :| 0 <= j < |b| && b[j] == x;
      MultisetRemove(b, j);
      MassAtMostPermutation(rest, b[..j] + b[j + 1..], u);
      MassAtMostRemove(b, j, u);
    }
  }

  /** Every entry of `b` occurs in `a` when the two are permutations. */
  lemma EntryOfPermutation(a: seq<Item>, b: seq<Item>, i: nat)
    requires multiset(a) == multiset(b) && i < |b|
    ensures exists j | 0 <= j < |a| :: a[j] == b[i]
  {
    assert b[i] in multiset(a);
  }

  /** The largest value of a list is also the largest value of any permutation. */
  lemma MaxOfPermutation(a: seq<Item>, b: seq<Item>)
    requires multiset(a) == multiset(b) && |a| > 0
    ensures forall i | 0 <= i < |b| :: b[i].v <= MaxValue(a)
  {
    forall i | 0 <= i < |b| ensures b[i].v <= MaxValue(a) {
      EntryOfPermutation(a, b, i);
    }
  }

  /** The total weight does not depend on the order of the pairs. */
  lemma MassPermutation(a: seq<Item>, b: seq<Item>)
    requires multiset(a) == multiset(b) && |a| > 0
    ensures Mass(a) == Mass(b)
  {
    var m := MaxValue(a);
    MaxOfPermutation(a, b);
    MassAtMostAll(a, m);
    MassAtMostAll(b, m);
    MassAtMostPermutation(a, b, m);
  }

  /** A larger share gives a larger threshold. */
  lemma ThresholdMonotone(items: seq<Item>, q1: real, q2: real)
    requires Positive(items) && q1 <= q2
    ensures Threshold(items, q1) <= Threshold(items, q2)
  {
    MassAtMostBounds(items, 0);
    var m := Mass(items);
    assert Threshold(items, q1) == q1 * m;
    assert Threshold(items, q2) == q2 * m;
    ScaleMonotone(m, q1, q2);
  }

  /** A share of at most one is at most the total. */
  lemma ThresholdAtMostMass(items: seq<Item>, q: real)
    requires Positive(items) && q <= 1.0
    ensures Threshold(items, q) <= Mass(items)
  {
    MassAtMostBounds(items, 0);
    var m := Mass(items);
    assert Threshold(items, q) == q * m;
    ScaleBelowOne(m, q);
  }

  lemma ScaleBelowOne(m: real, q: real)
    requires m >= 0.0 && q <= 1.0
    ensures q * m <= m
  {
  }

  lemma ScaleMonotone(m: real, q1: real, q2: real)
    requires m >= 0.0 && q1 <= q2
    ensures q1 * m <= q2 * m
  {
  }

  // ---------------------------------------------------------------------
  // Properties of the weighted quantile

  /** Only one value satisfies `IsQuantileAt`. */
  lemma QuantileUnique(items: seq<Item>, thr: real, r1: int, r2: int)
    requires IsQuantileAt(items, thr, r1) && IsQuantileAt(items, thr, r2)
    ensures r1 == r2
  {
  }

  /** The quantile does not depend on the order of the input pairs. */
  lemma QuantilePermutation(a: seq<Item>, b: seq<Item>, thr: real, r: int)
    requires multiset(a) == multiset(b) && |a| > 0
    requires IsQuantileAt(a, thr, r)
    ensures |b| > 0 && QuantileAt(b, thr) == r
  {
    assert |b| == |multiset(b)| == |a|;
    assert HasValue(b, r) by {
      var j :| 0 <= j < |a| && a[j].v == r;
      EntryOfPermutation(b, a, j);
    }
    forall u | HasValue(b, u) && u < r ensures MassAtMost(b, u) < thr {
      var i :| 0 <= i < |b| && b[i].v == u;
      EntryOfPermutation(a, b, i);
      MassAtMostPermutation(a, b, u);
    }
    MassAtMostPermutation(a, b, r);
    if MassAtMost(a, r) < thr {
      forall i | 0 <= i < |b| ensures b[i].v <= r {
        EntryOfPermutation(a, b, i);
      }
    }
    assert IsQuantileAt(b, thr, r);
    QuantileUnique(b, thr, r, QuantileAt(b, thr));
  }

  /** The weighted `q`-quantile does not depend on the order of the pairs. */
  lemma QuantileOfPermutation(a: seq<Item>, b: seq<Item>, q: real)
    requires multiset(a) == multiset(b) && |a| > 0
    ensures |b| > 0 && QuantileOf(a, q) == QuantileOf(b, q)
  {
    MassPermutation(a, b);
    assert Threshold(a, q) == Threshold(b, q);
    QuantilePermutation(a, b, Threshold(a, q), QuantileOf(a, q));
  }

  /** A threshold of zero or less is reached at once: the result is the minimum. */
  lemma QuantileAtMostZeroIsMinimum(items: seq<Item>, thr: real)
    requires |items| > 0 && Positive(items) && thr <= 0.0
    ensures forall i | 0 <= i < |items| :: QuantileAt(items, thr) <= items[i].v
  {
    var r := QuantileAt(items, thr);
    forall i | 0 <= i < |items| ensures r <= items[i].v {
      if items[i].v < r {
        MassAtMostBounds(items, items[i].v);
        assert HasValue(items, items[i].v);
      }
    }
  }

  /** For a share `q <= 0` the result is the smallest value. */
  lemma QuantileOfNonPositiveIsMinimum(items: seq<Item>, q: real)
    requires |items| > 0 && Positive(items) && q <= 0.0
    ensures forall i | 0 <= i < |items| :: QuantileOf(items, q) <= items[i].v
  {
    MassAtMostBounds(items, 0);
    ScaleMonotone(Mass(items), q, 0.0);
    QuantileAtMostZeroIsMinimum(items, Threshold(items, q));
  }

  /** A threshold no larger than the total is always reached, so the
      fall-back to the maximum never decides. */
  lemma QuantileReachesThreshold(items: seq<Item>, thr: real)
    requires |items| > 0 && Positive(items) && thr <= Mass(items)
    ensures MassAtMost(items, QuantileAt(items, thr)) >= thr
  {
    var r := QuantileAt(items, thr);
    if MassAtMost(items, r) < thr {
      MassAtMostAll(items, r);
    }
  }

  /** For `q <= 1` the walk stops on its own: the result reaches share `q`. */
  lemma QuantileOfReachesShare(items: seq<Item>, q: real)
    requires |items| > 0 && Positive(items) && q <= 1.0
    ensures MassAtMost(items, QuantileOf(items, q)) >= Threshold(items, q)
  {
    ThresholdAtMostMass(items, q);
    QuantileReachesThreshold(items, Threshold(items, q));
  }

  /** A larger threshold never gives a smaller value. */
  lemma QuantileMonotone(items: seq<Item>, thr1: real, thr2: real)
    requires |items| > 0 && thr1 <= thr2
    ensures QuantileAt(items, thr1) <= QuantileAt(items, thr2)
  {
  }

  /** A larger share never gives a smaller value: the result is
      non-decreasing in `q`. */
  lemma QuantileOfMonotone(items: seq<Item>, q1: real, q2: real)
    requires |items| > 0 && Positive(items) && q1 <= q2
    ensures QuantileOf(items, q1) <= QuantileOf(items, q2)
  {
    ThresholdMonotone(items, q1, q2);
    QuantileMonotone(items, Threshold(items, q1), Threshold(items, q2));
  }

  // ---------------------------------------------------------------------
  // The walk over the sorted pairs

  /** In a sorted list, everything up to `k` is at most `s[k].v` and
      everything from `k` on is at least `s[k].v`. */
  lemma SortedAround(s: seq<Item>, k: nat)
    requires SortedByValue(s) && k < |s|
    ensures forall i | 0 <= i <= k :: s[i].v <= s[k].v
    ensures forall i | k <= i < |s| :: s[k].v <= s[i].v
  {
  }

  /** Every entry from index `k` on exceeds `u`, so only the first `k` count. */
  lemma CountedBeforeIndex(s: seq<Item>, k: nat, u: int)
    requires Positive(s) && k <= |s|
    requires forall i | k <= i < |s| :: u < s[i].v
    ensures MassAtMost(s, u) <= Mass(s[..k])
  {
    var p, t := s[..k], s[k..];
    assert s == p + t;
    MassAtMostAppend(p, t, u);
    MassAtMostNone(t, u);
    MassAtMostBounds(p, u);
  }

  /** The first `k + 1` entries are all at most `s[k].v`, so they all count. */
  lemma CountedThroughIndex(s: seq<Item>, k: nat)
    requires Positive(s) && k < |s|
    requires forall i | 0 <= i <= k :: s[i].v <= s[k].v
    ensures MassAtMost(s, s[k].v) >= Mass(s[..k + 1])
  {
    var p, t, u := s[..k + 1], s[k + 1..], s[k].v;
    assert s == p + t;
    MassAtMostAppend(p, t, u);
    MassAtMostAll(p, u);
    MassAtMostBounds(t, u);
  }

  /** Where the walk over sorted pairs stops is the weighted quantile: at the
      first index whose running sum reaches share `q`, or at the last. */
  lemma WalkStopsAtQuantile(s: seq<Item>, k: nat, thr: real)
    requires Positive(s) && k < |s|
    requires forall i | 0 <= i <= k :: s[i].v <= s[k].v
    requires forall i | k <= i < |s| :: s[k].v <= s[i].v
    requires k > 0 ==> Mass(s[..k]) < thr
    requires Mass(s[..k + 1]) >= thr || k == |s| - 1
    ensures IsQuantileAt(s, thr, s[k].v)
  {
    forall u | HasValue(s, u) && u < s[k].v ensures MassAtMost(s, u) < thr {
      var i :| 0 <= i < |s| && s[i].v == u;
      assert i < k;
      CountedBeforeIndex(s, k, u);
    }
    if Mass(s[..k + 1]) >= thr {
      CountedThroughIndex(s, k);
    }
  }

  /** The test `cum/total >= q` of the walk is the comparison of the
      running sum with the threshold. */
  lemma ShareReached(s: seq<Item>, cum: real, total: real, q: real)
    requires total == Mass(s) && total > 0.0
    ensures (cum / total >= q) == (cum >= Threshold(s, q))
  {
    assert Threshold(s, q) == q * total;
    assert cum == (cum / total) * total;
    if cum / total >= q {
      assert (cum / total) * total >= q * total;
    } else {
      assert (cum / total) * total < q * total;
    }
  }

  /** The threshold depends only on the multiset of pairs. */
  lemma ThresholdPermutation(a: seq<Item>, b: seq<Item>, q: real)
    requires multiset(a) == multiset(b) && |a| > 0
    ensures Threshold(a, q) == Threshold(b, q)
  {
    MassPermutation(a, b);
  }

  /** `items.sort((a, b) => a.v - b.v)`, in place: insertion by adjacent swaps. */
  method SortByValue(a: array<Item>)
    modifies a
    ensures SortedByValue(a[..])
    ensures multiset(a[..]) == multiset(old(a[..]))
  {
    var i := 0;
    while i < a.Length
      invariant 0 <= i <= a.Length
      invariant SortedByValue(a[..i])
      invariant multiset(a[..]) == multiset(old(a[..]))
    {
      InsertLast(a, i);
      i := i + 1;
    }
    assert a[..] == a[..a.Length];
  }

  /** The prefix `s[..i + 1]` is sorted once position `j` is left out. */
  ghost predicate SortedExcept(s: seq<Item>, i: nat, j: nat)
    requires i < |s|
  {
    forall k, l | 0 <= k < l <= i && k != j && l != j :: s[k].v <= s[l].v
  }

  /** The entry at `j` is below every entry after it up to `i`. */
  ghost predicate BelowRest(s: seq<Item>, i: nat, j: nat)
    requires j <= i < |s|
  {
    forall l | j < l <= i :: s[j].v < s[l].v
  }

  /** One swap of the moving entry with its left neighbour keeps both facts. */
  lemma SwapLeft(s: seq<Item>, i: nat, j: nat)
    requires 0 < j <= i < |s|
    requires SortedExcept(s, i, j) && BelowRest(s, i, j) && s[j - 1].v > s[j].v
    ensures SortedExcept(s[j - 1 := s[j]][j := s[j - 1]], i, j - 1)
    ensures BelowRest(s[j - 1 := s[j]][j := s[j - 1]], i, j - 1)
    ensures multiset(s[j - 1 := s[j]][j := s[j - 1]]) == multiset(s)
  {
  }

  /** The moving entry has come to rest: the prefix is sorted. */
  lemma InsertDone(s: seq<Item>, i: nat, j: nat)
    requires j <= i < |s|
    requires SortedExcept(s, i, j) && BelowRest(s, i, j)
    requires j == 0 || s[j - 1].v <= s[j].v
    ensures SortedByValue(s[..i + 1])
  {
  }

  /** Moves `a[i]` left into the sorted prefix `a[..i]`. */
  method InsertLast(a: array<Item>, i: nat)
    requires i < a.Length && SortedByValue(a[..i])
    modifies a
    ensures SortedByValue(a[..i + 1])
    ensures multiset(a[..]) == multiset(old(a[..]))
  {
    var j := i;
    assert SortedExcept(a[..], i, j);
    while j > 0 && a[j - 1].v > a[j].v
      invariant 0 <= j <= i
      invariant SortedExcept(a[..], i, j) && BelowRest(a[..], i, j)
      invariant multiset(a[..]) == multiset(old(a[..]))
    {
      SwapLeft(a[..], i, j);
      a[j - 1], a[j] := a[j], a[j - 1];
      j := j - 1;
    }
    InsertDone(a[..], i, j);
  }

  /** `items.reduce((s, x) => s + x.w, 0)` */
  method TotalWeight(a: array<Item>) returns (total: real)
    ensures total == Mass(a[..])
  {
    total := 0.0;
    for k := 0 to a.Length
      invariant total == Mass(a[..k])
    {
      assert a[..k + 1][..k] == a[..k];
      total := total + a[k].w;
    }
    assert a[..a.Length] == a[..];
  }

  /** The loop of `weightedQuantile` over the sorted pairs: the first value
      at which `cum/total` reaches `q`, or the last value. */
  method Walk(a: array<Item>, total: real, q: real) returns (r: int)
    requires a.Length > 0 && Positive(a[..]) && SortedByValue(a[..])
    requires total == Mass(a[..])
    ensures IsQuantileAt(a[..], Threshold(a[..], q), r)
  {
    ghost var s := a[..];
    ghost var thr := Threshold(s, q);
    MassPositive(s);
    var cum := 0.0;
    for k := 0 to a.Length
      invariant cum == Mass(s[..k])
      invariant k > 0 ==> cum < thr
    {
      assert s[..k + 1][..k] == s[..k];
      cum := cum + a[k].w;
      ShareReached(s, cum, total, q);
      if cum / total >= q {
        SortedAround(s, k);
        WalkStopsAtQuantile(s, k, thr);
        return a[k].v;
      }
    }
    assert s[..a.Length][..a.Length - 1] == s[..a.Length - 1];
    SortedAround(s, a.Length - 1);
    WalkStopsAtQuantile(s, a.Length - 1, thr);
    r := a[a.Length - 1].v;
  }

  /** `weightedQuantile(values, weights, q)`. */
  method WeightedQuantile(values: seq<int>, weights: seq<real>, q: real) returns (r: Option<int>)
    requires NonNegative(weights)
    ensures r == Quantile(values, weights, q)
  {
    if |values| == 0 {
      return None;
    }
    var items := Items(values, weights);
    var a := new Item[|items|](i requires 0 <= i < |items| => items[i]);
    assert a[..] == items;
    SortByValue(a);
    assert Positive(a[..]) by {
      forall i | 0 <= i < a.Length ensures a[..][i].w > 0.0 {
        EntryOfPermutation(items, a[..], i);
      }
    }
    var total := TotalWeight(a);
    var v := Walk(a, total, q);
    ThresholdPermutation(a[..], items, q);
    QuantilePermutation(a[..], items, Threshold(items, q), v);
    r := Some(v);
  }
}
