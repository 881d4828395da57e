/** Shared pieces of the predictor script: the configuration constants, the
    Option wrapper that stands for JavaScript's `null`/`NaN` results,
    `clamp`, the rounding done by `toFixed(2)`, and the `slice(-k)` window
    that keeps a log bounded. Numbers are held in hundredths, because every
    stored value goes through `Number(n.toFixed(2))`. */
module Common {

  datatype Option<T> = None | Some(value: T)

  /** MAX_KEEP: capacity of the value log. */
  const MAX_KEEP: nat := 1000
  /** RECENT_MAX: how many of the newest values a prediction looks at. */
  const RECENT_MAX: nat := 200
  /** MIN_VAL and MAX_VAL as read from user input. */
  const MIN_VAL: real := 1.0
  const MAX_VAL: real := 10000.0
  /** MIN_VAL and MAX_VAL in hundredths. */
  const MIN_HUNDREDTHS: int := 100
  const MAX_HUNDREDTHS: int := 1000000

  /** `clamp(v, a, b)`, that is `Math.max(a, Math.min(b, v))`. */
  function Clamp(v: real, a: real, b: real): (r: real)
    ensures a <= b ==> a <= r <= b
    ensures a <= v <= b ==> r == v
    ensures v < a ==> r == a
    ensures a <= b < v ==> r == b
  {
    var m := if b < v then b else v;
    if a < m then m else a
  }

  /** Rounding to the nearest integer, halves going up: what `toFixed`
      does to a non-negative number, taken on exact values. */
  function RoundHalfUp(x: real): (r: int)
    ensures r as real <= x + 0.5 < r as real + 1.0
  {
    (x + 0.5).Floor
  }

  /** `Number(x.toFixed(2))` in hundredths: the nearest hundredth, halves
      rounded up. A number in `[MIN_VAL, MAX_VAL]` gives a whole number of
      hundredths in `[MIN_HUNDREDTHS, MAX_HUNDREDTHS]`. */
  function ToHundredths(x: real): (h: int)
    ensures h as real - 0.5 <= 100.0 * x < h as real + 0.5
    ensures MIN_VAL <= x <= MAX_VAL ==> MIN_HUNDREDTHS <= h <= MAX_HUNDREDTHS
  {
    RoundHalfUp(100.0 * x)
  }

  /** `s.slice(-k)` for a positive `k`: the newest `min(k, |s|)` elements,
      in their original order. */
  function Keep(s: seq<int>, k: nat): (r: seq<int>)
    requires k > 0
    ensures |r| == if |s| <= k then |s| else k
  {
    if |s| <= k then s else s[|s| - k..]
  }

  /** Capping after every append is the same as capping once at the end:
      the log always holds the newest `k` of everything ever appended. */
  lemma KeepAfterKeep(s: seq<int>, t: seq<int>, k: nat)
    requires k > 0
    ensures Keep(Keep(s, k) + t, k) == Keep(s + t, k)
  {
    if |s| > k {
      var u := s[|s| - k..] + t;
      if |t| == 0 {
        assert u == s[|s| - k..];
        assert s + t == s;
      } else {
        assert Keep(u, k) == u[|t|..];
        assert u[|t|..] == (s + t)[|s| + |t| - k..];
      }
    }
  }

  /** Entry `i` of the kept part is entry `i` of the newest `min(k, |s|)`
      elements of `s`. */
  lemma KeepEntry(s: seq<int>, k: nat, i: nat)
    requires k > 0 && i < |Keep(s, k)|
    ensures Keep(s, k)[i] == s[|s| - |Keep(s, k)| + i]
  {
  }

  /** Two appends in a row, each followed by the cap, keep what one append
      of both followed by the cap keeps. */
  lemma KeepAppendTwice(s: seq<int>, x: seq<int>, y: seq<int>, k: nat)
    requires k > 0
    ensures Keep(Keep(s + x, k) + y, k) == Keep(s + (x + y), k)
  {
    KeepAfterKeep(s + x, y, k);
    assert s + x + y == s + (x + y);
  }

  /** Once the log holds at least `k` entries, older history makes no
      difference to the newest `k`. */
  lemma KeepIgnoresOlder(older: seq<int>, s: seq<int>, k: nat)
    requires k > 0 && |s| >= k
    ensures Keep(older + s, k) == Keep(s, k)
  {
    assert (older + s)[|older + s| - k..] == s[|s| - k..];
  }

  /** `Math.max(...s)` over a non-empty list. */
  function MaxOf(s: seq<int>): (m: int)
    requires |s| > 0
    ensures m in s
    ensures forall i | 0 <= i < |s| :: s[i] <= m
  {
    if |s| == 1 then s[0]
    else
      var rest := MaxOf(s[1..]);
      if s[0] > rest then s[0] else rest
  }
}
