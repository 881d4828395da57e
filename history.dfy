/** The click handlers of the predictor script on the state they share: the
    value log `values` (in hundredths, at most `MAX_KEEP` long after every
    append), the counters `stats`, and the pending `currentPrediction`.

    The text the handlers read (the history text area, the single-value
    field, the real-value field, the import prompt) is a parameter, and so
    are the answer to the clear confirmation and `Math.random()`. Writing to
    local storage, rendering and the alerts are not modelled; the alert a
    handler would show is its `Outcome`. */
module History {
  import opened Common
  import opened NumberParse
  import opened Predictor

  /** How a handler ends: `Done`, or the early return it takes. */
  datatype Outcome =
    | Done
    | EmptyText     // load: nothing in the text area
    | InvalidValue  // add, submitReal: unreadable or out of range
    | Cancelled     // clear not confirmed, import prompt left empty
    | NoHistory     // generate on an empty log
    | NoPending     // confirmRight, confirmWrong: nothing pending
    | InvalidJson   // import: the text is not a JSON object

  /** What the import prompt delivered: nothing, text that `JSON.parse`
      rejects, or an object with optional `values` and `stats`. */
  datatype ImportText =
    | NoText
    | NotJson
    | Json(values: Option<seq<int>>, stats: Option<Stats>)

  // ---------------------------------------------------------------------
  // The lines of the history text

  /** `s.split("\n")`: the pieces between newlines, in order. */
  function SplitAtNewline(s: string): (parts: seq<string>)
    ensures |parts| > 0
    ensures forall i | 0 <= i < |parts| :: '\n' !in parts[i]
  {
    if |s| == 0 then [""]
    else
      var rest := SplitAtNewline(s[1..]);
      if s[0] == '\n' then [""] + rest else [[s[0]] + rest[0]] + rest[1..]
  }

  /** A piece that a `\r\n` ended, without its `\r`. */
  function DropReturn(p: string): (r: string)
    ensures |r| <= |p| && r == p[..|r|]
    ensures p == r + (if |p| > 0 && p[|p| - 1] == '\r' then "\r" else "")
  {
    if |p| > 0 && p[|p| - 1] == '\r' then p[..|p| - 1] else p
  }

  /** `s.split(/\r?\n/)`: a newline and a carriage return just before it
      both end a piece. */
  function SplitLines(s: string): (lines: seq<string>)
    ensures |lines| == |SplitAtNewline(s)|
  {
    var parts := SplitAtNewline(s);
    seq(|parts|, i requires 0 <= i < |parts| => if i < |parts| - 1 then DropReturn(parts[i]) else parts[i])
  }

  /** `.map(r => r.trim()).filter(r => r.length > 0)` */
  function TrimmedLines(parts: seq<string>): (lines: seq<string>)
    ensures |lines| <= |parts|
    ensures forall i | 0 <= i < |lines| :: |lines[i]| > 0
  {
    if |parts| == 0 then []
    else
      var t := Trim(parts[0]);
      (if |t| > 0 then [t] else []) + TrimmedLines(parts[1..])
  }

  /** The lines `loadHistory` reads from the text area. */
  function Lines(text: string): seq<string> {
    TrimmedLines(SplitLines(Trim(text)))
  }

  /** `read` applied to each line, in order; the handlers read with
      `ReadValue`, that is `parseNumberRaw` and the range check. */
  function Readings(read: string -> Option<int>, lines: seq<string>): (rs: seq<Option<int>>)
    ensures |rs| == |lines|
  {
    if |lines| == 0 then []
    else Readings(read, lines[..|lines| - 1]) + [read(lines[|lines| - 1])]
  }

  /** The present values of a list of readings, in order. */
  function Present(rs: seq<Option<int>>): (vs: seq<int>)
    ensures |vs| <= |rs|
  {
    if |rs| == 0 then []
    else
      var last := rs[|rs| - 1];
      Present(rs[..|rs| - 1]) + (if last.Some? then [last.value] else [])
  }

  /** The values a list of lines contributes: each line that reads as a
      number in `[MIN_VAL, MAX_VAL]`, in hundredths, in order. */
  function Accepted(lines: seq<string>): seq<int> {
    Present(Readings(ReadValue, lines))
  }

  /** Lines joined with newlines: the text of a list of lines. */
  function JoinLines(lines: seq<string>): string {
    if |lines| == 0 then ""
    else if |lines| == 1 then lines[0]
    else lines[0] + "\n" + JoinLines(lines[1..])
  }

  /** The values of a log, one per line, written with two decimals. */
  function Rendered(hs: seq<int>): (lines: seq<string>)
    requires forall i | 0 <= i < |hs| :: hs[i] >= 0
    ensures |lines| == |hs|
  {
    seq(|hs|, i requires 0 <= i < |hs| => TwoDecimals(hs[i]))
  }

  /** One pass of the load loop: pushing reading `i`, when it has a value,
      extends the pushed values by the readings one further. */
  lemma PushStep(rs: seq<Option<int>>, i: nat, n: Option<int>, vs: seq<int>, pushed: seq<int>)
    requires i < |rs| && n == rs[i] && pushed == vs + Present(rs[..i])
    ensures (if n.Some? then pushed + [n.value] else pushed) == vs + Present(rs[..i + 1])
    ensures |Present(rs[..i + 1])| == |Present(rs[..i])| + (if n.Some? then 1 else 0)
  {
    PresentStep(rs, i);
  }

  /** The loop of the load button: push the value of every accepted line
      onto `vs` and count them. */
  method AppendAccepted(vs: seq<int>, lines: seq<string>) returns (pushed: seq<int>, added: nat)
    ensures pushed == vs + Accepted(lines)
    ensures added == |Accepted(lines)|
  {
    ghost var rs := Readings(ReadValue, lines);
    pushed := vs;
    added := 0;
    for i := 0 to |lines|
      invariant pushed == vs + Present(rs[..i])
      invariant added == |Present(rs[..i])|
    {
      // parseNumberRaw(l), the range check and Number(n.toFixed(2))
      var n := ReadValue(lines[i]);
      ReadingsAt(ReadValue, lines, i);
      PushStep(rs, i, n, vs, pushed);
      if n.Some? {
        pushed := pushed + [n.value];
        added := added + 1;
      }
    }
    assert rs[..|lines|] == rs;
  }

  // ---------------------------------------------------------------------
  // The session

  /** The right and wrong answers, together with a pending prediction, never
      outnumber the generated predictions. */
  ghost predicate Accounted(stats: Stats, current: Option<Prediction>) {
    stats.right + stats.wrong + (if current.Some? then 1 else 0) <= stats.total
  }

  class Session {
    /** `values`: the log, oldest first, in hundredths. */
    var values: seq<int>
    /** `stats`: generated, right and wrong predictions. */
    var stats: Stats
    /** `currentPrediction`: the prediction awaiting an answer, if any. */
    var current: Option<Prediction>

    /** The start-up state: `loadJSON` of the stored log and counters, each
        with its default when nothing is stored, and nothing pending. */
    constructor(storedValues: Option<seq<int>>, storedStats: Option<Stats>)
      ensures values == (if storedValues.Some? then storedValues.value else [])
      ensures stats == (if storedStats.Some? then storedStats.value else Stats(0, 0, 0))
      ensures current == None
    {
      values := if storedValues.Some? then storedValues.value else [];
      stats := if storedStats.Some? then storedStats.value else Stats(0, 0, 0);
      current := None;
    }

    /** The load button: append every accepted line of the text area, then
        keep the newest `MAX_KEEP`; `added` is the number of accepted
        lines. Blank text changes nothing. */
    method LoadHistory(text: string) returns (outcome: Outcome, added: nat)
      modifies this
      ensures AllSpace(text) ==> outcome == EmptyText && added == 0 && values == old(values)
      ensures !AllSpace(text) ==> outcome == Done
      ensures !AllSpace(text) ==> values == Keep(old(values) + Accepted(Lines(text)), MAX_KEEP)
      ensures !AllSpace(text) ==> added == |Accepted(Lines(text))|
      ensures stats == old(stats) && current == old(current)
    {
      var raw := Trim(text);
      if |raw| == 0 {
        return EmptyText, 0;
      }
      var lines := TrimmedLines(SplitLines(raw));
      var pushed;
      pushed, added := AppendAccepted(values, lines);
      values := Keep(pushed, MAX_KEEP);
      outcome := Done;
    }

    /** The add button: one value, or nothing when it is unreadable or out
        of range. */
    method AddSingle(input: string) returns (outcome: Outcome)
      modifies this
      ensures ReadValue(input).None? ==> outcome == InvalidValue && values == old(values)
      ensures ReadValue(input).Some? ==> outcome == Done && values == Keep(old(values) + [ReadValue(input).value], MAX_KEEP)
      ensures stats == old(stats) && current == old(current)
    {
      var n := ParseNumberRaw(Some(input));
      if n.None? || n.value < MIN_VAL || n.value > MAX_VAL {
        return InvalidValue;
      }
      values := Keep(values + [ToHundredths(n.value)], MAX_KEEP);
      outcome := Done;
    }

    /** The clear button: empties the log once the user confirms. */
    method ClearHistory(confirmed: bool) returns (outcome: Outcome)
      modifies this
      ensures !confirmed ==> outcome == Cancelled && values == old(values)
      ensures confirmed ==> outcome == Done && values == []
      ensures stats == old(stats) && current == old(current)
    {
      if !confirmed {
        return Cancelled;
      }
      values := [];
      outcome := Done;
    }

    /** The generate button: with a non-empty log the prediction for the
        current log and counters becomes the pending one, replacing any
        earlier one, and `total` grows by one. */
    method Generate(rand: real) returns (outcome: Outcome)
      modifies this
      ensures |old(values)| == 0 ==> outcome == NoHistory && stats == old(stats) && current == old(current)
      ensures |old(values)| > 0 ==> outcome == Done && current == PredictionOf(old(values), old(stats), rand)
      ensures |old(values)| > 0 ==> stats == old(stats).(total := old(stats).total + 1)
      ensures values == old(values)
      ensures |old(values)| > 0 ==> current.Some?
      ensures old(Accounted(stats, current)) ==> Accounted(stats, current)
    {
      if |values| == 0 {
        return NoHistory;
      }
      var pred := GeneratePrediction(values, stats, rand);
      assert pred.Some?;
      current := pred;
      stats := stats.(total := stats.total + 1);
      outcome := Done;
    }

    /** The "Acertou" button: the pending value joins the log once, `right`
        grows by one and nothing is pending any more. */
    method ConfirmRight() returns (outcome: Outcome)
      modifies this
      ensures old(current).None? ==> outcome == NoPending && values == old(values) && stats == old(stats) && current == None
      ensures old(current).Some? ==> outcome == Done && values == Keep(old(values) + [old(current).value.value], MAX_KEEP)
      ensures old(current).Some? ==> stats == old(stats).(right := old(stats).right + 1) && current == None
      ensures old(Accounted(stats, current)) ==> Accounted(stats, current)
    {
      if current.None? {
        return NoPending;
      }
      values := values + [current.value.value];
      if |values| > MAX_KEEP {
        values := Keep(values, MAX_KEEP);
      }
      stats := stats.(right := stats.right + 1);
      current := None;
      outcome := Done;
    }

    /** The "Errou" button only opens the field for the real value. */
    method ConfirmWrong() returns (outcome: Outcome)
      ensures outcome == (if current.None? then NoPending else Done)
    {
      if current.None? {
        return NoPending;
      }
      outcome := Done;
    }

    /** The real-value button: the real value joins the log once, `wrong`
        grows by one and nothing is pending any more. Only the value is
        checked, not that a prediction is pending. */
    method SubmitReal(input: string) returns (outcome: Outcome)
      modifies this
      ensures ReadValue(input).None? ==> outcome == InvalidValue && values == old(values) && stats == old(stats) && current == old(current)
      ensures ReadValue(input).Some? ==> outcome == Done && values == Keep(old(values) + [ReadValue(input).value], MAX_KEEP)
      ensures ReadValue(input).Some? ==> stats == old(stats).(wrong := old(stats).wrong + 1) && current == None
      ensures old(current).Some? && old(Accounted(stats, current)) ==> Accounted(stats, current)
    {
      var n := ParseNumberRaw(Some(input));
      if n.None? || n.value < MIN_VAL || n.value > MAX_VAL {
        return InvalidValue;
      }
      values := values + [ToHundredths(n.value)];
      if |values| > MAX_KEEP {
        values := Keep(values, MAX_KEEP);
      }
      stats := stats.(wrong := stats.wrong + 1);
      current := None;
      outcome := Done;
    }

    /** The import button: imported values go before the log, the newest
        `MAX_KEEP` of the whole are kept, and imported counters replace the
        current ones. */
    method Import(input: ImportText) returns (outcome: Outcome)
      modifies this
      ensures input.NoText? ==> outcome == Cancelled && values == old(values) && stats == old(stats)
      ensures input.NotJson? ==> outcome == InvalidJson && values == old(values) && stats == old(stats)
      ensures input.Json? ==> outcome == Done
      ensures input.Json? ==> values == if input.values.Some? then Keep(input.values.value + old(values), MAX_KEEP) else old(values)
      ensures input.Json? ==> stats == if input.stats.Some? then input.stats.value else old(stats)
      ensures current == old(current)
    {
      if input.NoText? {
        return Cancelled;
      }
      if input.NotJson? {
        return InvalidJson;
      }
      if input.values.Some? {
        values := Keep(input.values.value + values, MAX_KEEP);
      }
      if input.stats.Some? {
        stats := input.stats.value;
      }
      outcome := Done;
    }
  }

  // ---------------------------------------------------------------------
  // Properties

  /** A one-line prefix before a newline is the first piece. */
  lemma {:induction false} SplitAfterLine(a: string, rest: string)
    requires '\n' !in a
    ensures SplitAtNewline(a + "\n" + rest) == [a] + SplitAtNewline(rest)
    decreases |a|
  {
    if |a| == 0 {
      assert a + "\n" + rest == "\n" + rest;
      assert ("\n" + rest)[1..] == rest;
    } else {
      var s := a + "\n" + rest;
      assert s[0] == a[0] && s[1..] == a[1..] + "\n" + rest;
      SplitAfterLine(a[1..], rest);
      assert [a[0]] + a[1..] == a;
    }
  }

  /** Text without a newline is one piece. */
  lemma {:induction false} SplitOfLine(a: string)
    requires '\n' !in a
    ensures SplitAtNewline(a) == [a]
    decreases |a|
  {
    if |a| > 0 {
      SplitOfLine(a[1..]);
      assert [a[0]] + a[1..] == a;
    }
  }

  /** Splitting joined lines gives the lines back. */
  lemma {:induction false} SplitJoin(lines: seq<string>)
    requires |lines| > 0
    requires forall i | 0 <= i < |lines| :: '\n' !in lines[i]
    ensures SplitAtNewline(JoinLines(lines)) == lines
  {
    if |lines| == 1 {
      SplitOfLine(lines[0]);
    } else {
      SplitJoin(lines[1..]);
      SplitAfterLine(lines[0], JoinLines(lines[1..]));
      assert [lines[0]] + lines[1..] == lines;
    }
  }

  /** Lines without carriage returns come back from `split(/\r?\n/)`. */
  lemma SplitLinesJoin(lines: seq<string>)
    requires |lines| > 0
    requires forall i | 0 <= i < |lines| :: '\n' !in lines[i] && '\r' !in lines[i]
    ensures SplitLines(JoinLines(lines)) == lines
  {
    SplitJoin(lines);
    var parts := SplitAtNewline(JoinLines(lines));
    forall i | 0 <= i < |lines| ensures SplitLines(JoinLines(lines))[i] == lines[i] {
      if |lines[i]| > 0 {
        assert lines[i][|lines[i]| - 1] in lines[i];
      }
    }
  }

  /** Lines joined with `\r\n`, as a text written on Windows. */
  function JoinCrlf(lines: seq<string>): string {
    if |lines| == 0 then ""
    else if |lines| == 1 then lines[0]
    else lines[0] + "\r\n" + JoinCrlf(lines[1..])
  }

  /** The lines with a `\r` after every one but the last. */
  function WithReturns(lines: seq<string>): (rs: seq<string>)
    ensures |rs| == |lines|
  {
    seq(|lines|, i requires 0 <= i < |lines| => if i < |lines| - 1 then lines[i] + "\r" else lines[i])
  }

  lemma {:induction false} JoinCrlfAsJoinLines(lines: seq<string>)
    ensures JoinCrlf(lines) == JoinLines(WithReturns(lines))
    decreases |lines|
  {
    if |lines| >= 2 {
      JoinCrlfAsJoinLines(lines[1..]);
      var w := WithReturns(lines);
      assert w[0] == lines[0] + "\r";
      assert w[1..] == WithReturns(lines[1..]);
      assert lines[0] + "\r\n" + JoinCrlf(lines[1..]) == (lines[0] + "\r") + "\n" + JoinCrlf(lines[1..]);
    }
  }

  /** Lines without line breaks, joined with `\r\n`, come back from
      `split(/\r?\n/)`: the `\r` of each line end is dropped with it. */
  lemma SplitLinesJoinCrlf(lines: seq<string>)
    requires |lines| > 0
    requires forall i | 0 <= i < |lines| :: '\n' !in lines[i] && '\r' !in lines[i]
    ensures SplitLines(JoinCrlf(lines)) == lines
  {
    var w := WithReturns(lines);
    JoinCrlfAsJoinLines(lines);
    forall i | 0 <= i < |w| ensures '\n' !in w[i] {
      if i < |lines| - 1 {
        assert '\n' !in "\r";
      }
    }
    SplitJoin(w);
    forall i | 0 <= i < |lines| ensures SplitLines(JoinCrlf(lines))[i] == lines[i] {
      if i < |lines| - 1 {
        assert DropReturn(lines[i] + "\r") == lines[i];
      } else if |lines[i]| > 0 {
        assert lines[i][|lines[i]| - 1] in lines[i];
      }
    }
  }

  /** One piece: its trim when that is not empty, nothing otherwise. */
  lemma TrimmedLinesOfOne(p: string)
    ensures TrimmedLines([p]) == if |Trim(p)| > 0 then [Trim(p)] else []
  {
    assert [p][1..] == [];
  }

  /** The trim and the filter work piece by piece, in order. With
      `TrimmedLinesOfOne` this fixes them on every list of pieces. */
  lemma {:induction false} TrimmedLinesAppend(a: seq<string>, b: seq<string>)
    ensures TrimmedLines(a + b) == TrimmedLines(a) + TrimmedLines(b)
    decreases |a|
  {
    if |a| > 0 {
      var ab := a + b;
      assert ab[0] == a[0] && ab[1..] == a[1..] + b;
      var t := Trim(a[0]);
      var head := if |t| > 0 then [t] else [];
      assert TrimmedLines(ab) == head + TrimmedLines(ab[1..]);
      assert TrimmedLines(a) == head + TrimmedLines(a[1..]);
      TrimmedLinesAppend(a[1..], b);
    } else {
      assert a + b == b;
    }
  }

  /** Lines that are already trimmed and non-empty pass the trim and the
      filter unchanged. */
  lemma {:induction false} TrimmedLinesOfTrimmed(lines: seq<string>)
    requires forall i | 0 <= i < |lines| :: |lines[i]| > 0 && Trim(lines[i]) == lines[i]
    ensures TrimmedLines(lines) == lines
  {
    if |lines| > 0 {
      TrimmedLinesOfTrimmed(lines[1..]);
      assert [lines[0]] + lines[1..] == lines;
    }
  }

  /** Text that neither starts nor ends with white space is its own trim. */
  lemma TrimOfTrimmed(s: string)
    requires |s| > 0 && !IsSpace(s[0]) && !IsSpace(s[|s| - 1])
    ensures Trim(s) == s
  {
    assert LeadingSpace(s) == 0;
    assert s[0..] == s;
    assert TrailingSpace(s) == 0;
  }

  /** A value written with two decimals is trimmed, non-empty and free of
      line breaks. */
  lemma RenderedLine(h: nat)
    ensures |TwoDecimals(h)| > 0 && Trim(TwoDecimals(h)) == TwoDecimals(h)
    ensures '\n' !in TwoDecimals(h) && '\r' !in TwoDecimals(h)
  {
    var s := TwoDecimals(h);
    TrimOfTrimmed(s);
    assert forall c | c in s :: IsNumeric(c);
  }

  /** The joined lines of a log start and end with a digit. */
  lemma {:induction false} JoinedEnds(lines: seq<string>)
    requires |lines| > 0
    requires forall i | 0 <= i < |lines| :: |lines[i]| > 0 && IsDigit(lines[i][0]) && IsDigit(lines[i][|lines[i]| - 1])
    ensures var s := JoinLines(lines); |s| > 0 && IsDigit(s[0]) && IsDigit(s[|s| - 1])
  {
    if |lines| > 1 {
      JoinedEnds(lines[1..]);
    }
  }

  /** Reading `i` is the reading of line `i`. */
  lemma {:induction false} ReadingsAt(read: string -> Option<int>, lines: seq<string>, i: nat)
    requires i < |lines|
    ensures Readings(read, lines)[i] == read(lines[i])
  {
    var n := |lines|;
    if i < n - 1 {
      ReadingsAt(read, lines[..n - 1], i);
    }
  }

  /** The readings of two lists of lines, one after the other. */
  lemma {:induction false} ReadingsAppend(read: string -> Option<int>, a: seq<string>, b: seq<string>)
    ensures Readings(read, a + b) == Readings(read, a) + Readings(read, b)
    decreases |b|
  {
    if |b| == 0 {
      assert a + b == a;
    } else {
      ReadingsAppend(read, a, b[..|b| - 1]);
      assert (a + b)[..|a + b| - 1] == a + b[..|b| - 1];
    }
  }

  lemma {:induction false} PresentAppend(a: seq<Option<int>>, b: seq<Option<int>>)
    ensures Present(a + b) == Present(a) + Present(b)
    decreases |b|
  {
    if |b| == 0 {
      assert a + b == a;
    } else {
      assert (a + b)[..|a + b| - 1] == a + b[..|b| - 1];
      PresentAppend(a, b[..|b| - 1]);
    }
  }

  /** Values accepted from lines are the values of each line in turn. */
  lemma AcceptedAppend(a: seq<string>, b: seq<string>)
    ensures Accepted(a + b) == Accepted(a) + Accepted(b)
  {
    ReadingsAppend(ReadValue, a, b);
    PresentAppend(Readings(ReadValue, a), Readings(ReadValue, b));
  }

  /** One more reading adds its value, when it has one. */
  lemma PresentStep(rs: seq<Option<int>>, i: nat)
    requires i < |rs|
    ensures Present(rs[..i + 1]) == Present(rs[..i]) + (if rs[i].Some? then [rs[i].value] else [])
  {
    assert rs[..i + 1][..i] == rs[..i];
  }

  lemma {:induction false} PresentInRange(rs: seq<Option<int>>)
    requires forall i | 0 <= i < |rs| :: rs[i].Some? ==> MIN_HUNDREDTHS <= rs[i].value <= MAX_HUNDREDTHS
    ensures forall i | 0 <= i < |Present(rs)| :: MIN_HUNDREDTHS <= Present(rs)[i] <= MAX_HUNDREDTHS
  {
    if |rs| > 0 {
      PresentInRange(rs[..|rs| - 1]);
    }
  }

  /** Every value accepted from the text lies in `[MIN_VAL, MAX_VAL]`. */
  lemma AcceptedInRange(lines: seq<string>)
    ensures forall i | 0 <= i < |Accepted(lines)| :: MIN_HUNDREDTHS <= Accepted(lines)[i] <= MAX_HUNDREDTHS
  {
    var rs := Readings(ReadValue, lines);
    forall i | 0 <= i < |rs| ensures rs[i].Some? ==> MIN_HUNDREDTHS <= rs[i].value <= MAX_HUNDREDTHS {
      ReadingsAt(ReadValue, lines, i);
    }
    PresentInRange(rs);
  }

  /** Readings that are all present give their values. */
  lemma {:induction false} PresentOfAll(rs: seq<Option<int>>, vs: seq<int>)
    requires |rs| == |vs| && forall i | 0 <= i < |rs| :: rs[i] == Some(vs[i])
    ensures Present(rs) == vs
  {
    if |rs| > 0 {
      PresentOfAll(rs[..|rs| - 1], vs[..|vs| - 1]);
      assert vs[..|vs| - 1] + [vs[|vs| - 1]] == vs;
    }
  }

  /** Every line of a rendered log is accepted as the value it shows. */
  lemma AcceptedRendered(hs: seq<int>)
    requires forall i | 0 <= i < |hs| :: MIN_HUNDREDTHS <= hs[i] <= MAX_HUNDREDTHS
    ensures Accepted(Rendered(hs)) == hs
  {
    var rs := Readings(ReadValue, Rendered(hs));
    forall i | 0 <= i < |hs| ensures rs[i] == Some(hs[i]) {
      ReadingsAt(ReadValue, Rendered(hs), i);
      StoredValueReadsBack(hs[i]);
    }
    PresentOfAll(rs, hs);
  }

  /** A log written out one value per line and pasted into the text area
      loads back as the same values, in the same order. */
  lemma LoadReadsBackRendered(hs: seq<int>)
    requires |hs| > 0
    requires forall i | 0 <= i < |hs| :: MIN_HUNDREDTHS <= hs[i] <= MAX_HUNDREDTHS
    ensures !AllSpace(JoinLines(Rendered(hs)))
    ensures Accepted(Lines(JoinLines(Rendered(hs)))) == hs
  {
    var lines := Rendered(hs);
    forall i | 0 <= i < |lines|
      ensures |lines[i]| > 0 && Trim(lines[i]) == lines[i]
      ensures '\n' !in lines[i] && '\r' !in lines[i]
      ensures IsDigit(lines[i][0]) && IsDigit(lines[i][|lines[i]| - 1])
    {
      RenderedLine(hs[i]);
    }
    var text := JoinLines(lines);
    JoinedEnds(lines);
    TrimOfTrimmed(text);
    assert !IsSpace(text[0]);
    SplitLinesJoin(lines);
    TrimmedLinesOfTrimmed(lines);
    AcceptedRendered(hs);
  }

  /** Loading two lists of lines one after the other leaves the same log as
      loading them together. */
  lemma LoadInTwoParts(vs: seq<int>, a: seq<string>, b: seq<string>)
    ensures Keep(Keep(vs + Accepted(a), MAX_KEEP) + Accepted(b), MAX_KEEP) == Keep(vs + Accepted(a + b), MAX_KEEP)
  {
    AcceptedAppend(a, b);
    KeepAppendTwice(vs, Accepted(a), Accepted(b), MAX_KEEP);
  }

  /** A line that does not read as a value in range contributes nothing. */
  lemma RejectedLineIgnored(a: seq<string>, line: string, b: seq<string>)
    requires ReadValue(line).None?
    ensures Accepted(a + [line] + b) == Accepted(a + b)
  {
    var ra, rl, rb := Readings(ReadValue, a), Readings(ReadValue, [line]), Readings(ReadValue, b);
    var none: seq<Option<int>> := [None];
    assert rl == none by {
      assert rl[0] == ReadValue(line);
    }
    calc {
      Accepted(a + [line] + b);
      Present(Readings(ReadValue, a + [line] + b));
      { ReadingsAppend(ReadValue, a + [line], b); ReadingsAppend(ReadValue, a, [line]); }
      Present(ra + rl + rb);
      { PresentSkipsMissing(ra, rb); }
      Present(ra + rb);
      { ReadingsAppend(ReadValue, a, b); }
      Accepted(a + b);
    }
  }

  lemma PresentSkipsMissing(ra: seq<Option<int>>, rb: seq<Option<int>>)
    ensures Present(ra + [None] + rb) == Present(ra + rb)
  {
    var none: seq<Option<int>> := [None];
    PresentAppend(ra + none, rb);
    PresentAppend(ra, none);
    PresentAppend(ra, rb);
    assert none[..0] == [];
  }

  /** Whatever is loaded, added or confirmed, the values taken from the
      user lie in `[MIN_VAL, MAX_VAL]`, so a log that starts in range stays
      in range. */
  lemma AppendKeepsRange(vs: seq<int>, more: seq<int>)
    requires forall i | 0 <= i < |vs| :: MIN_HUNDREDTHS <= vs[i] <= MAX_HUNDREDTHS
    requires forall i | 0 <= i < |more| :: MIN_HUNDREDTHS <= more[i] <= MAX_HUNDREDTHS
    ensures forall i | 0 <= i < |Keep(vs + more, MAX_KEEP)| :: MIN_HUNDREDTHS <= Keep(vs + more, MAX_KEEP)[i] <= MAX_HUNDREDTHS
  {
    var all := vs + more;
    var kept := Keep(all, MAX_KEEP);
    forall i | 0 <= i < |kept| ensures MIN_HUNDREDTHS <= kept[i] <= MAX_HUNDREDTHS {
      KeepEntry(all, MAX_KEEP, i);
    }
  }
}
