# Pascoal Wise Predictor: a Dafny model of the predictor core

The predictor is a single-page script. The user pastes or types a history of
multipliers (numbers between 1 and 10000) and asks for a "palpite", a guess at
the next value. The user then answers "Acertou" (right) or "Errou" (wrong).
After a wrong answer the user types the real value.

This project models the core of `public/script.js`:

- the helpers `clamp`, `weightedQuantile`, `recencyWeights` and `parseNumberRaw`;
- `generatePrediction`;
- the click handlers, as far as they change the shared state: the value log
  `values`, the counters `stats` and the pending `currentPrediction`.

Modules, one per file:

- `Common` (`common.dfy`): the configuration constants, `clamp` and the
  rounding done by `Number(x.toFixed(2))`. Also the `slice(-k)` cap that every
  append path applies to the log.
- `Quantile` (`quantile.dfy`): `weightedQuantile`. A method copies the pairs into
  an array, sorts it in place and walks it. It is proved equal to an order-free
  reference: the least value whose weight-at-most reaches `q` times the total,
  or the maximum when none does.
- `Recency` (`recency.dfy`): `recencyWeights`, a push loop proved equal to a
  recursive weight list.
- `NumberParse` (`parse.dfy`): `parseNumberRaw`, that is trim, comma to point,
  strip and `parseFloat`. Also the range check the handlers apply after it.
- `Predictor` (`predictor.dfy`): `generatePrediction`. This is the split into the
  azul, lilas and vermelho buckets, the choice of bucket, the base estimate with
  its fall-backs, the precision-damped jitter and the final clamp. A method that
  follows the code is proved equal to the function `PredictionOf`.
- `History` (`history.dfy`): the class `Session` with the fields `values`,
  `stats` and `current`, and one method per handler. The line splitting of the
  history text and the loop that loads its lines also live here.

Numbers are held in integer hundredths: the script stores every value as
`Number(n.toFixed(2))`, so 100 stands for 1.00 and 1000000 for 10000.00.
Weights, shares and the jitter are exact reals. `Math.random()` is the
parameter `rand`. The answers to the dialogs, and the text the user typed, are
parameters as well.

What the handlers do, as written:

- `stats.total` counts generated predictions, answered or not (line 136).
- Generating again replaces a pending prediction (line 126).
- Either answer adds exactly one value to the log (lines 148 and 173).
- `submitReal` does not check that a prediction is pending (lines 166-168).
  So a right/wrong tally that fits in `total` is kept only when one is pending
  (`History.Session.SubmitReal`).

## Model

| member | source | states |
|---|---|---|
| Common.Clamp | public/script.js:19 | for `a <= b` the result lies in `[a, b]`; it is `v` when `v` is inside, `a` below, `b` above |
| Common.RoundHalfUp | public/script.js:94 | the integer within one half of `x`, halves rounded up (`toFixed` on a non-negative number) |
| Common.ToHundredths | public/script.js:94 | `Number(x.toFixed(2))` in hundredths: within half a hundredth of `100 x`, and in `[100, 1000000]` when `x` is in `[MIN_VAL, MAX_VAL]` |
| Common.Keep | public/script.js:98 | `slice(-k)` keeps `min(k, length)` entries, so a capped log never exceeds `MAX_KEEP` |
| Common.KeepEntry | public/script.js:98 | entry `i` of the kept part is entry `length - kept + i` of the whole: the newest entries, in order |
| Common.KeepAfterKeep | public/script.js:98 | capping after each append equals capping once after all appends |
| Common.KeepAppendTwice | public/script.js:108 | two capped appends in a row leave the same log as one capped append of both |
| Common.KeepIgnoresOlder | public/script.js:216 | once there are at least `k` newer entries, older history does not change the newest `k` |
| Common.MaxOf | public/script.js:241 | `Math.max(...recent)` is one of the values and at least every value |
| Quantile.Mass | public/script.js:28 | definition: the sum of the weights of the pairs; its properties are MassPositive and MassPermutation |
| Quantile.MassAtMost | public/script.js:29-31 | definition: the weight of the pairs whose value is at most `u`; its properties are MassAtMostAppend, MassAtMostBounds and MassAtMostPermutation |
| Quantile.IsQuantileAt | public/script.js:29-34 | definition: the order-free reference for the walk, a value of the pairs that no smaller value beats to the threshold and that reaches it unless it is the maximum |
| Quantile.QuantileOf | public/script.js:24-35 | definition: the reference quantile for share `q`; its properties are QuantileOfPermutation, QuantileOfMonotone and QuantileOfReachesShare |
| Quantile.EffectiveWeight | public/script.js:26 | `weights[i] \|\| 1` is the given weight when that is present and non-zero, and positive whenever the weights are non-negative |
| Quantile.Items | public/script.js:26 | one pair per value: pair `i` carries value `i` and the effective weight `i`, so positive weights for non-negative weights |
| Quantile.ValuesOf | public/script.js:239 | `arr.map(x => x.v)`: same length, entry by entry the values |
| Quantile.WeightsOf | public/script.js:239 | `arr.map(x => x.w)`: same length, entry by entry the weights |
| Quantile.MaxValue | public/script.js:34 | the largest value of the pairs is one of them and at least every value |
| Quantile.LeastReaching | public/script.js:29-33 | the least value whose weight-at-most reaches the threshold, or none when no value does |
| Quantile.QuantileAt | public/script.js:29-34 | satisfies `IsQuantileAt`: a value of the list, every smaller value falls short of the threshold, and the value reaches it unless it is the maximum |
| Quantile.Quantile | public/script.js:24-35 | `null` exactly for an empty list, otherwise one of the input values |
| Quantile.WeightedQuantile | public/script.js:24-35 | the sort-and-walk computes exactly `Quantile(values, weights, q)` |
| Quantile.SortByValue | public/script.js:27 | the pairs end sorted by value and are a permutation of the input |
| Quantile.InsertLast | public/script.js:27 | one insertion step: the prefix one longer is sorted, and the array is a permutation |
| Quantile.TotalWeight | public/script.js:28 | the sum of the weights, front to back |
| Quantile.Walk | public/script.js:29-34 | on sorted positive pairs the walk returns the reference quantile for share `q` |
| Quantile.ShareReached | public/script.js:32 | `cum/total >= q` is the comparison of the running sum with `q` times the total |
| Quantile.WalkStopsAtQuantile | public/script.js:30-34 | where the walk stops, first index reaching the share or else the last, is the reference quantile |
| Quantile.QuantileUnique | public/script.js:24-35 | only one value satisfies `IsQuantileAt` |
| Quantile.QuantilePermutation | public/script.js:27 | the quantile for a threshold does not depend on the order of the pairs |
| Quantile.QuantileOfPermutation | public/script.js:27 | the `q`-quantile does not depend on the order of the pairs |
| Quantile.MassAtMostPermutation | public/script.js:27 | the weight at most `u` does not depend on the order of the pairs |
| Quantile.MassPermutation | public/script.js:28 | the total weight does not depend on the order of the pairs |
| Quantile.QuantileOfNonPositiveIsMinimum | public/script.js:32 | for `q <= 0` the result is the smallest value |
| Quantile.QuantileOfMonotone | public/script.js:32 | a larger `q` never gives a smaller result |
| Quantile.QuantileMonotone | public/script.js:32 | a larger threshold never gives a smaller result |
| Quantile.QuantileOfReachesShare | public/script.js:32-34 | for `q <= 1` the result reaches share `q`, so the fall-back to the last value never decides |
| Quantile.QuantileAtMostZeroIsMinimum | public/script.js:32 | a threshold of at most zero is reached by the smallest value |
| Quantile.Threshold | public/script.js:32 | definition: share `q` of the total weight, the `q * total` that `cum/total >= q` compares with; its properties are ThresholdMonotone and ThresholdAtMostMass |
| Quantile.ThresholdMonotone | public/script.js:32 | a larger share gives a larger threshold on positive weights |
| Quantile.ThresholdAtMostMass | public/script.js:32 | a share of at most one is at most the total weight |
| Quantile.MassPositive | public/script.js:28 | a non-empty list of positive weights has a positive total, so `cum/total` is defined |
| Quantile.MassAtMostAppend | public/script.js:28-31 | the weight at most `u` of two lists is the sum of theirs |
| Quantile.MassAtMostBounds | public/script.js:28-31 | the weight at most `u` lies between zero and the total |
| Recency.Pow | public/script.js:39 | definition: `decay` to the power `d`, the weight `exp(-lambda * d)` of an entry `d` steps before the newest; its properties are PowBounds and PowDecreasing |
| Recency.Weights | public/script.js:36-42 | exactly `n` weights |
| Recency.WeightAt | public/script.js:39 | entry `i` is `decay` to the power `n - 1 - i`: it depends only on the distance from the newest entry |
| Recency.RecencyWeights | public/script.js:36-42 | the push loop returns exactly `Weights(n, decay)` |
| Recency.NewestWeighsOne | public/script.js:39 | the newest entry weighs `exp(0) = 1` |
| Recency.WeightsSuffix | public/script.js:39 | the weights of the newest `m` entries do not depend on how many older ones there are |
| Recency.WeightsBounded | public/script.js:39 | for a positive decay every weight is positive, and for a decay of at most one no weight exceeds 1 |
| Recency.WeightsIncreasing | public/script.js:39 | for a decay in `(0, 1)` the weights strictly increase towards the newest |
| Recency.PowBounds | public/script.js:39 | a positive base gives a positive power, and a base of at most one a power of at most one |
| Recency.PowDecreasing | public/script.js:39 | for a base in `(0, 1)` a larger power is smaller |
| Recency.DefaultDecayInRange | public/script.js:219 | the factor for `lambda = 0.08` lies strictly between 0 and 1 |
| Recency.DefaultWeightsIncreasing | public/script.js:219 | the window weights for `lambda = 0.08` lie in `(0, 1]` and strictly increase towards the newest value |
| NumberParse.IsSpace | public/script.js:47 | definition: the white space and line terminators `trim()` removes |
| NumberParse.Normalise | public/script.js:49 | definition: the comma replacement and then the strip; its properties are NormaliseAppend, NormaliseOfSpace and NormaliseAfterTrim |
| NumberParse.ReadValue | public/script.js:92-94 | definition: `parseNumberRaw` followed by the range check; accepted exactly as `AcceptValue` states; its property is StoredValueReadsBack |
| NumberParse.LeadingSpace | public/script.js:47 | the leading run of white space: all of it is space, and the next character is not |
| NumberParse.TrailingSpace | public/script.js:47 | the trailing run of white space: all of it is space, and the character before it is not |
| NumberParse.Trim | public/script.js:47 | `trim()` is the part of `s` after its leading white space, followed by nothing but white space, neither starting nor ending with white space (which determines it); empty exactly for all-space text |
| NumberParse.CommaToDot | public/script.js:49 | `replace(/,/g, '.')` keeps the length, turns each comma into a point and keeps every other character where it stands |
| NumberParse.KeepNumeric | public/script.js:49 | `replace(/[^\d.]/g, '')` leaves only digits and points, and is no longer than its input |
| NumberParse.KeepNumericOfChar | public/script.js:49 | one character is kept when it is a digit or a point and dropped otherwise |
| NumberParse.IsDigit | public/script.js:49 | definition: `\d`, an ASCII digit |
| NumberParse.IsNumeric | public/script.js:49 | definition: the class `[\d.]` the strip keeps |
| NumberParse.IntValue | public/script.js:50 | definition: the whole part `parseFloat` reads from a run of digits; its properties are IntValueOfDecimal and WholeNumberRoundTrip |
| NumberParse.DigitRun | public/script.js:50 | the leading run of digits `parseFloat` reads |
| NumberParse.FracValue | public/script.js:50 | digits after the point add a value in `[0, 1]` |
| NumberParse.FractionDigits | public/script.js:50 | the digits right after a leading point are all digits |
| NumberParse.ParseDecimalPrefix | public/script.js:50-51 | `parseFloat` of a digits-and-points string is never negative |
| NumberParse.ParseNumberRaw | public/script.js:45-52 | NaN for `null`/`undefined` and for blank text; otherwise any number is at least 0 |
| NumberParse.AcceptValue | public/script.js:93-94 | accepted exactly when a number in `[MIN_VAL, MAX_VAL]`, then stored as its hundredths, in `[100, 1000000]` |
| NumberParse.CommaToDotAppend | public/script.js:49 | the comma replacement works character by character |
| NumberParse.KeepNumericAppend | public/script.js:49 | the strip works character by character |
| NumberParse.NormaliseAppend | public/script.js:49 | the comma replacement followed by the strip works character by character |
| NumberParse.NormaliseOfSpace | public/script.js:49 | white space is stripped entirely |
| NumberParse.NormaliseAfterTrim | public/script.js:47-49 | stripping the trimmed text gives what stripping the untrimmed text gives |
| NumberParse.TrimIsRedundant | public/script.js:45-52 | the result is `parseFloat` of the normalised raw input: the trim decides nothing |
| NumberParse.CommaReadsAsPoint | public/script.js:49 | `"a,b"` reads as `"a.b"` |
| NumberParse.NormaliseCommaAsPoint | public/script.js:49 | after the comma replacement and the strip, `"a,b"` and `"a.b"` are the same text |
| NumberParse.OtherCharacterIgnored | public/script.js:49 | a character other than a digit, point or comma makes no difference wherever it stands |
| NumberParse.NegativeSignIgnored | public/script.js:49 | a leading minus is stripped, so `"-5"` reads as `5` |
| NumberParse.PlainNumberUnchanged | public/script.js:47-50 | text of digits and points that starts and ends with a digit passes trim and strip unchanged |
| NumberParse.ParseDecimalOf | public/script.js:50 | `whole.frac` parses to its whole part plus its fraction |
| NumberParse.WholeNumberRoundTrip | public/script.js:45-52 | the decimal digits of `n` read back as `n` |
| NumberParse.TwoDecimals | public/script.js:94 | the two-decimal text of a value starts and ends with a digit and holds only digits and a point |
| NumberParse.TwoDecimalsRoundTrip | public/script.js:45-52 | the two-decimal text of `h` hundredths parses to `h / 100`, which rounds back to `h` |
| NumberParse.StoredValueReadsBack | public/script.js:92-94 | a stored value in range, written out and read again, is accepted as the same value |
| Predictor.BucketOf | public/script.js:227-229 | definition: azul below 2, lilas from 2 up to 10, vermelho from 10 (in hundredths) |
| Predictor.Pairs | public/script.js:219-226 | definition: the window paired with its recency weights |
| Predictor.Chosen | public/script.js:233-236 | definition: `Choose` on the weights of the window's three bucket lists; its properties are ChosenIsHeaviest and ChosenCarriesAThird |
| Predictor.BucketQuantile | public/script.js:239 | definition: the weighted quantile of one bucket's values and weights |
| Predictor.FirstEstimate | public/script.js:241-243 | definition: the bucket quantile with its first `\|\|` fall-back; its property is FirstFromWindow |
| Predictor.BaseEstimate | public/script.js:239-245 | definition: the first estimate, else the whole-window quantile at 0.6, else 2.5; its property is BaseFromWindow |
| Predictor.MeasuredPrecision | public/script.js:248 | right answers per generated prediction (`p * total == right`), the target before any prediction, and in `[0, 1]` while right answers do not outnumber predictions |
| Predictor.JitterPct | public/script.js:252 | definition: 2% divided by the safety factor; its properties are JitterPctBounds and JitterPctMonotone |
| Predictor.Jitter | public/script.js:254 | definition: `Math.random()` mapped to `[-1, 1]` and scaled by the jitter magnitude; its property is JitterBounded |
| Predictor.Jittered | public/script.js:255 | definition: `base * (1 + jitter)`; its property is PredictedNearBase |
| Predictor.InBucket | public/script.js:224-230 | a bucket list holds only pairs of its own bucket, no more than the window has |
| Predictor.Choose | public/script.js:233-236 | vermelho exactly when its sum beats 1.05 times lilas and beats azul; azul exactly when its sum beats 1.05 times lilas and beats vermelho; otherwise lilas |
| Predictor.Falsy | public/script.js:241-245 | definition: a quantile result JavaScript treats as false, `null` or 0 |
| Predictor.Or | public/script.js:241-245 | `a \|\| b` is `a` whenever `a` is neither `null` nor 0, and `b` otherwise |
| Predictor.SafetyFactor | public/script.js:250 | the safety factor always lies in `[0.5, 3]` |
| Predictor.Predicted | public/script.js:255 | for any base, precision and random number the prediction lies in `[MIN_VAL, MAX_VAL]` |
| Predictor.PredictionOf | public/script.js:214-258 | `null` exactly for an empty log; otherwise a value in `[100, 1000000]` hundredths |
| Predictor.GeneratePrediction | public/script.js:214-258 | the code's steps compute exactly `PredictionOf(values, stats, rand)` |
| Predictor.SplitBuckets | public/script.js:222-230 | the loop's three lists are the bucket lists of the window, in window order, and the three sums are their weights |
| Predictor.EstimateBase | public/script.js:239-245 | the branches and both rounds of fall-backs compute exactly `BaseEstimate` |
| Predictor.WqFromArr | public/script.js:239 | `wqFromArr` is the weighted quantile of one bucket's pairs, `null` when the bucket is empty |
| Predictor.BucketsPartition | public/script.js:224-230 | every pair of the window lands in exactly one bucket: the three lists together are a permutation of the window |
| Predictor.BucketSumsAddUp | public/script.js:223-230 | the three sums add up to the total weight of the window |
| Predictor.InPrefixIsInBucket | public/script.js:224-230 | what the loop has gathered after `n` pairs is the bucket list of the first `n` pairs |
| Predictor.InBucketStep | public/script.js:227-229 | one more pair joins its own bucket's list only |
| Predictor.ChoiceConditionsExclusive | public/script.js:234-235 | the vermelho and azul conditions never hold together |
| Predictor.ChosenIsHeaviest | public/script.js:234-235 | a bucket other than lilas is chosen only when it is strictly heavier than both others |
| Predictor.TieGoesToLilas | public/script.js:233-236 | when azul and vermelho weigh the same, lilas is chosen, even when lightest |
| Predictor.ChosenCarriesAThird | public/script.js:233-236 | vermelho or azul is chosen only when it carries more than a third of the window's weight |
| Predictor.BucketValueInWindow | public/script.js:239 | a value of a bucket's list is a value of the window |
| Predictor.FirstFromWindow | public/script.js:241-243 | the first estimate is missing or a value of the window |
| Predictor.BaseFromWindow | public/script.js:240-245 | the base is never 0, and it is a value of the window unless the fall-back 2.5 was taken |
| Predictor.SafetyFactorAntitone | public/script.js:250 | a lower measured precision never gives a smaller safety factor |
| Predictor.NeutralAtTarget | public/script.js:248-252 | before any prediction, or at exactly the target precision, the factor is 1 and the jitter 2% |
| Predictor.JitterPctBounds | public/script.js:252 | the jitter magnitude lies between 2%/3 and 4% |
| Predictor.JitterPctMonotone | public/script.js:250-252 | a higher measured precision never gives a smaller jitter |
| Predictor.JitterBounded | public/script.js:254 | for `Math.random()` in `[0, 1]` the jitter is at most `jitterPct` either way |
| Predictor.PredictedNearBase | public/script.js:254-255 | the prediction lies between the clamped base scaled by `1 - jitterPct` and by `1 + jitterPct` |
| Predictor.ClampMonotone | public/script.js:255 | clamping keeps the order of two values |
| Predictor.NoJitterAtMidpoint | public/script.js:254-257 | `Math.random()` returning one half gives back a base that lies in range |
| Predictor.PredictionUsesWindowOnly | public/script.js:216 | a prediction depends only on the newest `RECENT_MAX` values |
| Predictor.PredictionIgnoresWrong | public/script.js:248 | the wrong-answer counter plays no part in a prediction |
| History.SplitAtNewline | public/script.js:89 | `split` yields at least one piece, and no piece holds a newline |
| History.DropReturn | public/script.js:89 | the piece is the result followed by its final `\r` when it has one, and the result itself otherwise |
| History.SplitLines | public/script.js:89 | `split(/\r?\n/)` yields one line per newline-separated piece |
| History.TrimmedLines | public/script.js:89 | the trim and the filter keep no more lines than there were, and none empty |
| History.TrimmedLinesOfOne | public/script.js:89 | one piece gives its trim when that is not empty, and nothing otherwise |
| History.TrimmedLinesAppend | public/script.js:89 | the trim and the filter work piece by piece, in order |
| History.Lines | public/script.js:87-89 | definition: the text trimmed, split at line breaks, each line trimmed and the empty ones dropped; its property is LoadReadsBackRendered |
| History.Accepted | public/script.js:91-97 | definition: the readable in-range values of the lines, in order; its properties are AcceptedAppend, AcceptedInRange and RejectedLineIgnored |
| History.Readings | public/script.js:91-92 | one reading per line |
| History.ReadingsAt | public/script.js:92 | reading `i` is the reading of line `i` |
| History.ReadingsAppend | public/script.js:91-92 | the readings of two lists of lines are the readings of each, one after the other |
| History.Present | public/script.js:93-95 | the values of the readings that have one, no more than there were readings |
| History.PresentAppend | public/script.js:93-95 | the present values of two lists of readings follow one another |
| History.PresentStep | public/script.js:93-95 | one more reading adds its value, when it has one |
| History.AcceptedAppend | public/script.js:91-97 | two lists of lines loaded one after the other give the values of both, in order |
| History.AppendAccepted | public/script.js:90-97 | the loop pushes exactly the accepted values of the lines, in order, and `added` is their number |
| History.AcceptedInRange | public/script.js:93 | every value loaded from text lies in `[MIN_VAL, MAX_VAL]` |
| History.RejectedLineIgnored | public/script.js:93 | a line that is unreadable or out of range contributes nothing, wherever it stands |
| History.AcceptedRendered | public/script.js:92-94 | lines written as two-decimal values of a log in range are accepted as that log |
| History.LoadReadsBackRendered | public/script.js:87-97 | a log in range written one value per line is not blank, and loads back as the same values in the same order |
| History.SplitJoin | public/script.js:89 | splitting joined lines at newlines gives the lines back |
| History.SplitLinesJoin | public/script.js:89 | lines without line breaks, joined with `\n`, come back from `split(/\r?\n/)` |
| History.SplitLinesJoinCrlf | public/script.js:89 | lines without line breaks, joined with `\r\n`, come back from `split(/\r?\n/)` without their `\r` |
| History.TrimmedLinesOfTrimmed | public/script.js:89 | trimmed non-empty lines pass the trim and the filter unchanged |
| History.TrimOfTrimmed | public/script.js:87 | text with no space at either end is its own trim |
| History.LoadInTwoParts | public/script.js:91-98 | loading two texts one after the other leaves the log that loading both at once leaves |
| History.AppendKeepsRange | public/script.js:93-98 | appending values in range to a log in range, then capping, gives a log in range |
| History.Session.constructor | public/script.js:55-56 | the stored log and counters, or `[]` and zeros when nothing is stored, and nothing pending |
| History.Session.LoadHistory | public/script.js:86-102 | blank text changes nothing; otherwise the log becomes the newest `MAX_KEEP` of the old log followed by the accepted lines, and `added` counts them |
| History.Session.AddSingle | public/script.js:104-112 | an unreadable or out-of-range value leaves the log unchanged; otherwise it is appended once and the log capped |
| History.Session.ClearHistory | public/script.js:114-119 | without confirmation nothing changes; with it the log is empty |
| History.Session.Generate | public/script.js:121-139 | on an empty log nothing changes; otherwise the pending prediction is `PredictionOf` the old state and only `total` grows, by one; a tally that fits in `total` still fits |
| History.Session.ConfirmRight | public/script.js:142-157 | nothing pending: no change; otherwise the predicted value is appended once, `right` grows by one and nothing is pending |
| History.Session.ConfirmWrong | public/script.js:160-164 | reports whether a prediction is pending and changes nothing |
| History.Session.SubmitReal | public/script.js:166-184 | an invalid value changes nothing; otherwise it is appended once, `wrong` grows by one and nothing is pending |
| History.Session.Import | public/script.js:198-211 | no text or bad JSON changes nothing; otherwise imported values go before the log, the whole is capped, and imported counters replace the old ones |

## Left out

- The DOM is not modelled: the element lookups, rendering (`renderAll`, `renderStats`, `renderHistoryLog`) and the alerts. A handler's alert is only its `Outcome`.
- `localStorage` is not modelled: `saveJSON`, `loadJSON` errors and storage keys. The start-up state takes the stored log and counters as parameters.
- The export button (lines 187-196) only writes a file. It changes no state.
- `historyLog` is not modelled: the pending and result records, their 500-entry cap and the import of `obj.historyLog`. Nothing in the prediction reads it.
- The clock (`toLocaleTimeString`, the `hora` field) is not modelled.
- `server.js` serves static files and a health route. It is not part of this model.
- `Math.random()` is the parameter `rand`, and `confirm`/`prompt` are parameters too.
- Floating point is not modelled:
  - reals are exact;
  - `Math.exp(-lambda * d)` is `decay` to the power `d`, with `exp(-0.08)` written to sixteen decimals;
  - `toFixed(2)` is exact rounding half up, so the results of binary rounding near a half are not reproduced.
- `parseFloat` is modelled only on what it can receive here, strings of digits and points. Exponents, signs and `Infinity` never survive the strip.
- `isFinite(base)` (line 245) always holds in the model, because every value is a finite number.
- Import (line 203) does not validate the array's elements. The model takes them as integers in hundredths. It also treats JSON values that are not objects as `NotJson`. An imported counter object replaces `stats` whole (line 204), and a field missing from it is not modelled.
- `stats.x || 0` guards a missing field. Counters are always present in the model.
- Quantile.WeightedQuantile: requires non-negative weights. The script only ever passes recency weights and bucket weights, which are positive. Negative weights are not modelled.
- Predictor.WqFromArr: requires positive weights in the bucket. These always hold for pairs taken from the window.
- KeepNumeric: its own contract says only that the result is digits and points and no longer than its input. That every digit and point is kept, in order, is stated by KeepNumericOfChar together with KeepNumericAppend, which fix the strip on every string. A content clause on the function itself made every proof about the parser too costly.
- TrimmedLines: its own contract says only that no more lines come out than went in, and none empty. That the result is the non-empty trims of the pieces, in order, is stated by TrimmedLinesOfOne together with TrimmedLinesAppend.
- Start-up as written is not modelled. Line 57 calls `renderAll()` before the `const` bindings `loadedInfo` and `histList` (lines 65 and 76) are initialised. So `renderValues` throws a `ReferenceError`, and by this reading the handlers of lines 86-211 are never registered. The model follows the handler bodies as though start-up had completed.
