/**
 * The OHLCV candle table: validated upserts, gap detection, and the repair loop that asks an
 * unreliable fetcher for the widest gap until nothing more can be filled
 * (src/services/candle-store.ts). Prices are reals; a JavaScript number that is NaN or infinite
 * is NonFinite. Timestamps are integer milliseconds.
 */
module CandleStore {
  import opened Common

  datatype Interval = Minute | Day

  const DAY_MS := 24 * 60 * 60 * 1000

  function IntervalMs(interval: Interval): int {
    match interval
    case Minute => 60_000
    case Day => DAY_MS
  }

  datatype Number = Finite(value: real) | NonFinite

  /** The first four columns of the primary key; the last is the timestamp. */
  datatype Series = Series(coinId: string, vsCurrency: string, source: string, interval: Interval)

  datatype Candle = Candle(
    open: real, high: real, low: real, close: real,
    volume: Option<Number>, marketCap: Option<Number>, totalVolume: Option<Number>)

  datatype Input = Input(
    timestamp: int,
    open: Number, high: Number, low: Number, close: Number,
    volume: Option<Number>, marketCap: Option<Number>, totalVolume: Option<Number>,
    replaceExisting: bool)

  predicate FinitePositive(n: Number) {
    n.Finite? && n.value > 0.0
  }

  predicate HasValidOhlc(open: Number, high: Number, low: Number, close: Number) {
    && FinitePositive(open) && FinitePositive(high) && FinitePositive(low) && FinitePositive(close)
    && low.value <= open.value && low.value <= close.value
    && high.value >= open.value && high.value >= close.value
    && low.value <= high.value
  }

  predicate Accepted(input: Input) {
    HasValidOhlc(input.open, input.high, input.low, input.close)
  }

  type ValidInput = i: Input | Accepted(i) witness
    Input(0, Finite(1.0), Finite(1.0), Finite(1.0), Finite(1.0), None, None, None, false)

  predicate SoundCandle(c: Candle) {
    0.0 < c.low <= c.open <= c.high && c.low <= c.close <= c.high
  }

  /** The candles of one series by timestamp, and the whole table by series. */
  type Rows = map<int, Candle>
  type Table = map<Series, Rows>

  predicate Sound(rows: Rows) {
    forall t :: t in rows ==> SoundCandle(rows[t])
  }

  function Max(a: real, b: real): real { if a >= b then a else b }

  function Min(a: real, b: real): real { if a <= b then a else b }

  function NewCandle(input: Input): Candle
    requires Accepted(input)
  {
    Candle(input.open.value, input.high.value, input.low.value, input.close.value,
           input.volume, input.marketCap, input.totalVolume)
  }

  /** The stored candle after the upsert's ON CONFLICT clause, in either mode. */
  function OnConflict(old_: Candle, input: Input): Candle
    requires Accepted(input)
  {
    if input.replaceExisting then NewCandle(input)
    else NewCandle(input).(open := old_.open,
         high := Max(old_.high, input.high.value), low := Min(old_.low, input.low.value))
  }

  function Upserted(rows: Rows, input: Input): Rows {
    if !Accepted(input) then rows
    else rows[input.timestamp :=
              if input.timestamp in rows then OnConflict(rows[input.timestamp], input) else NewCandle(input)]
  }

  function UpsertAll(rows: Rows, inputs: seq<Input>): Rows {
    if inputs == [] then rows
    else Upserted(UpsertAll(rows, inputs[..|inputs| - 1]), inputs[|inputs| - 1])
  }

  lemma {:induction false} UpsertsKeepSound(rows: Rows, inputs: seq<Input>)
    requires Sound(rows)
    ensures Sound(UpsertAll(rows, inputs))
  {
    if inputs != [] {
      UpsertsKeepSound(rows, inputs[..|inputs| - 1]);
    }
  }

  predicate IsGreatest(x: real, a: real, b: real) { a <= x && b <= x && (x == a || x == b) }

  predicate IsLeast(x: real, a: real, b: real) { x <= a && x <= b && (x == a || x == b) }

  /** The columns of a candle that replaced or opened a row, and those of one merged into a row. */
  predicate ShowsInput(c: Candle, input: Input) {
    && input.open == Finite(c.open) && input.high == Finite(c.high) && input.low == Finite(c.low)
    && ShowsRest(c, input)
  }

  predicate ShowsRest(c: Candle, input: Input) {
    && input.close == Finite(c.close)
    && c.volume == input.volume && c.marketCap == input.marketCap && c.totalVolume == input.totalVolume
  }

  predicate ShowsMerged(c: Candle, was: Candle, input: Input) {
    && input.high.Finite? && input.low.Finite?
    && c.open == was.open && IsGreatest(c.high, was.high, input.high.value) && IsLeast(c.low, was.low, input.low.value)
    && ShowsRest(c, input)
  }

  /** A candle is accepted exactly when its four prices are finite, positive, and ordered as prices of one candle are. */
  lemma AcceptedIff(input: Input)
    ensures Accepted(input) <==>
            && input.open.Finite? && input.high.Finite? && input.low.Finite? && input.close.Finite?
            && 0.0 < input.low.value
            && input.low.value <= input.open.value <= input.high.value
            && input.low.value <= input.close.value <= input.high.value
  {
  }

  /** One upsert, column by column: a rejected candle changes nothing, an accepted one only its own row. */
  lemma UpsertShows(rows: Rows, input: Input)
    ensures var after, t := Upserted(rows, input), input.timestamp;
            if !Accepted(input) then after == rows
            else
              && t in after && after - {t} == rows - {t}
              && if t in rows && !input.replaceExisting then ShowsMerged(after[t], rows[t], input)
                 else ShowsInput(after[t], input)
  {
  }

  /** Of several replacing candles with one timestamp the last accepted one is stored. */
  lemma {:induction false} LastReplacementStays(rows: Rows, inputs: seq<Input>, i: nat)
    requires forall u :: u in inputs ==> u.replaceExisting
    requires i < |inputs| && Accepted(inputs[i])
    requires forall j :: i < j < |inputs| && inputs[j].timestamp == inputs[i].timestamp ==> !Accepted(inputs[j])
    ensures inputs[i].timestamp in UpsertAll(rows, inputs)
    ensures ShowsInput(UpsertAll(rows, inputs)[inputs[i].timestamp], inputs[i])
  {
    hide Upserted, Accepted, ShowsInput, ShowsMerged;
    var n, t := |inputs| - 1, inputs[i].timestamp;
    var before, after := UpsertAll(rows, inputs[..n]), UpsertAll(rows, inputs);
    UpsertShows(before, inputs[n]);
    if i < n {
      assert inputs[..n][i] == inputs[i];
      LastReplacementStays(rows, inputs[..n], i);
      if Accepted(inputs[n]) {
        assert t in before - {inputs[n].timestamp};
        assert (after - {inputs[n].timestamp})[t] == (before - {inputs[n].timestamp})[t];
      }
    }
  }

  /** What is left of a batch once the invalid candles are dropped. */
  function AcceptedOnly(inputs: seq<Input>): seq<ValidInput> {
    if inputs == [] then []
    else AcceptedOnly(inputs[..|inputs| - 1]) +
         if Accepted(inputs[|inputs| - 1]) then [inputs[|inputs| - 1]] else []
  }

  /** c is the one-shot summary of a batch: first open, last close and volumes, extreme high and low. */
  predicate Summarises(c: Candle, batch: seq<ValidInput>)
    requires batch != []
  {
    var last := batch[|batch| - 1];
    && c.open == batch[0].open.value
    && c.close == last.close.value
    && c.volume == last.volume && c.marketCap == last.marketCap && c.totalVolume == last.totalVolume
    && (forall i :: 0 <= i < |batch| ==> batch[i].high.value <= c.high && c.low <= batch[i].low.value)
    && (exists i :: 0 <= i < |batch| && batch[i].high.value == c.high)
    && (exists i :: 0 <= i < |batch| && batch[i].low.value == c.low)
  }

  lemma SummaryGrows(c: Candle, batch: seq<ValidInput>, last: ValidInput)
    requires batch != [] && Summarises(c, batch) && !last.replaceExisting
    ensures Summarises(OnConflict(c, last), batch + [last])
  {
    var n := |batch|;
    var h :| 0 <= h < n && batch[h].high.value == c.high;
    var l :| 0 <= l < n && batch[l].low.value == c.low;
    var longer, grown := batch + [last], OnConflict(c, last);
    var h', l' := if last.high.value == grown.high then n else h, if last.low.value == grown.low then n else l;
    assert longer[h'].high.value == grown.high && longer[l'].low.value == grown.low;
  }

  /** Merging candles one at a time into a new key gives the one-shot summary of the valid ones. */
  lemma {:induction false} MergesAggregate(rows: Rows, t: int, inputs: seq<Input>)
    requires t !in rows
    requires forall i :: 0 <= i < |inputs| ==> inputs[i].timestamp == t && !inputs[i].replaceExisting
    ensures var after := UpsertAll(rows, inputs);
            && (t in after <==> AcceptedOnly(inputs) != [])
            && (t in after ==> Summarises(after[t], AcceptedOnly(inputs)))
            && after - {t} == rows
  {
    hide Summarises, NewCandle, OnConflict, Accepted;
    if inputs != [] {
      var shorter := inputs[..|inputs| - 1];
      MergesAggregate(rows, t, shorter);
      var last := inputs[|inputs| - 1];
      if Accepted(last) {
        if t in UpsertAll(rows, shorter) {
          SummaryGrows(UpsertAll(rows, shorter)[t], AcceptedOnly(shorter), last);
        } else {
          SummaryStarts(last);
          assert AcceptedOnly(inputs) == [last];
        }
      } else {
        assert AcceptedOnly(inputs) == AcceptedOnly(shorter);
      }
    }
  }

  lemma SummaryStarts(only: ValidInput)
    ensures Summarises(NewCandle(only), [only])
  {
    var inputs: seq<ValidInput> := [only];
    assert inputs[0].high.value == NewCandle(only).high && inputs[0].low.value == NewCandle(only).low;
  }

  // ---------------------------------------------------------------- gaps

  datatype Gap = Gap(start: int, end: int, missing: seq<int>, slotCount: nat)

  /** The inner loop: the slots strictly between two stored timestamps, one interval apart. */
  function Slots(previous: int, current: int, interval: Interval): seq<int>
    decreases current - previous
  {
    var next := previous + IntervalMs(interval);
    if next < current then [next] + Slots(next, current, interval) else []
  }

  function GapBetween(previous: int, current: int, interval: Interval): seq<Gap> {
    var missing := Slots(previous, current, interval);
    if missing == [] then [] else [Gap(missing[0], missing[|missing| - 1], missing, |missing|)]
  }

  function GapsOf(times: seq<int>, interval: Interval): seq<Gap> {
    if |times| < 2 then []
    else GapsOf(times[..|times| - 1], interval) + GapBetween(times[|times| - 2], times[|times| - 1], interval)
  }

  function Flat(gaps: seq<Gap>): seq<int> {
    if gaps == [] then [] else Flat(gaps[..|gaps| - 1]) + gaps[|gaps| - 1].missing
  }

  /** Every missing slot of the series, in the order the detector lists them. */
  function Missing(times: set<int>, interval: Interval): seq<int> {
    Flat(GapsOf(Sorted(times), interval))
  }

  function TotalSlots(gaps: seq<Gap>): nat {
    if gaps == [] then 0 else TotalSlots(gaps[..|gaps| - 1]) + gaps[|gaps| - 1].slotCount
  }

  function Steps(n: int, interval: Interval): int {
    match interval
    case Minute => n * 60_000
    case Day => n * 86_400_000
  }

  /** A whole number of intervals. */
  ghost predicate OnGrid(d: int, interval: Interval) {
    exists n :: d == Steps(n, interval)
  }

  /** p is the stored timestamp just before t, t itself is not stored, and t lies on p's grid. */
  ghost predicate Follows(times: set<int>, interval: Interval, p: int, t: int) {
    p in times && p < t && OnGrid(t - p, interval) && forall q :: q in times ==> q <= p || t < q
  }

  /** Independent meaning of a missing slot: some candle is later, and t is on the grid of the candle before it. */
  ghost predicate IsMissing(times: set<int>, interval: Interval, t: int) {
    (exists c :: c in times && t < c) && (exists p :: Follows(times, interval, p, t))
  }

  lemma GridSteps(d: int, interval: Interval)
    ensures OnGrid(d, interval) <==> OnGrid(d - IntervalMs(interval), interval)
    ensures OnGrid(IntervalMs(interval), interval)
    ensures 0 < d < IntervalMs(interval) ==> !OnGrid(d, interval)
  {
    assert Steps(1, interval) == IntervalMs(interval);
    forall n
      ensures Steps(n, interval) + IntervalMs(interval) == Steps(n + 1, interval)
      ensures Steps(n, interval) - IntervalMs(interval) == Steps(n - 1, interval)
      ensures !(0 < Steps(n, interval) < IntervalMs(interval))
    {
    }
    if n :| d == Steps(n, interval) {
      assert d - IntervalMs(interval) == Steps(n - 1, interval);
    }
    if n :| d - IntervalMs(interval) == Steps(n, interval) {
      assert d == Steps(n + 1, interval);
    }
  }

  lemma {:induction false} SlotsAre(previous: int, current: int, interval: Interval, t: int)
    ensures t in Slots(previous, current, interval) <==>
            previous < t < current && OnGrid(t - previous, interval)
    ensures Ascending(Slots(previous, current, interval))
    decreases current - previous
  {
    hide OnGrid;
    var next := previous + IntervalMs(interval);
    GridSteps(t - previous, interval);
    if next < current {
      SlotsAre(next, current, interval, t);
      forall i | 0 <= i < |Slots(next, current, interval)|
        ensures next < Slots(next, current, interval)[i]
      {
        SlotsAre(next, current, interval, Slots(next, current, interval)[i]);
      }
    }
  }

  lemma {:induction false} FlatAppend(gaps: seq<Gap>, more: seq<Gap>)
    requires |more| <= 1
    ensures Flat(gaps + more) == Flat(gaps) + (if more == [] then [] else more[0].missing)
    ensures TotalSlots(gaps + more) == TotalSlots(gaps) + (if more == [] then 0 else more[0].slotCount)
  {
    if more == [] {
      assert gaps + more == gaps;
    } else {
      assert (gaps + more)[..|gaps + more| - 1] == gaps;
    }
  }

  predicate WellFormedGap(g: Gap) {
    g.missing != [] && g.start == g.missing[0] && g.end == g.missing[|g.missing| - 1] && g.slotCount == |g.missing|
  }

  lemma AscendingJoin(before: seq<int>, after: seq<int>, middle: int)
    requires Ascending(before) && Ascending(after)
    requires forall x :: x in before ==> x < middle
    requires forall x :: x in after ==> middle < x
    ensures Ascending(before + after)
  {
    assert forall i :: 0 <= i < |before| ==> before[i] in before;
    assert forall i :: 0 <= i < |after| ==> after[i] in after;
  }

  lemma SlotsLieBetween(previous: int, current: int, interval: Interval)
    ensures Ascending(Slots(previous, current, interval))
    ensures forall x :: x in Slots(previous, current, interval) ==> previous < x < current
  {
    SlotsAre(previous, current, interval, previous);
    forall x | x in Slots(previous, current, interval)
      ensures previous < x < current
    {
      SlotsAre(previous, current, interval, x);
    }
  }

  lemma {:induction false} DetectorAscends(times: seq<int>, interval: Interval)
    requires Ascending(times)
    ensures Ascending(Flat(GapsOf(times, interval)))
    ensures forall x :: x in Flat(GapsOf(times, interval)) ==> x < times[|times| - 1]
    decreases |times|
  {
    if |times| >= 2 {
      var shorter := times[..|times| - 1];
      var p, c := times[|times| - 2], times[|times| - 1];
      assert Ascending(shorter) && shorter[|shorter| - 1] == p && p < c;
      DetectorAscends(shorter, interval);
      FlatAppend(GapsOf(shorter, interval), GapBetween(p, c, interval));
      SlotsLieBetween(p, c, interval);
      hide Ascending;
      if Slots(p, c, interval) != [] {
        AscendingJoin(Flat(GapsOf(shorter, interval)), Slots(p, c, interval), p);
      }
    }
  }

  lemma {:induction false} DetectorCounts(times: seq<int>, interval: Interval)
    ensures |Flat(GapsOf(times, interval))| == TotalSlots(GapsOf(times, interval))
    ensures forall i :: 0 <= i < |GapsOf(times, interval)| ==> WellFormedGap(GapsOf(times, interval)[i])
    decreases |times|
  {
    hide Flat, TotalSlots, GapBetween, WellFormedGap;
    if |times| < 2 {
      NoGaps();
    } else {
      var shorter, p, c := times[..|times| - 1], times[|times| - 2], times[|times| - 1];
      DetectorCounts(shorter, interval);
      GapIsWellFormed(p, c, interval);
      FlatAppend(GapsOf(shorter, interval), GapBetween(p, c, interval));
      assert GapsOf(times, interval) == GapsOf(shorter, interval) + GapBetween(p, c, interval);
    }
  }

  lemma NoGaps()
    ensures Flat([]) == [] && TotalSlots([]) == 0
  {
  }

  lemma GapIsWellFormed(previous: int, current: int, interval: Interval)
    ensures var gaps := GapBetween(previous, current, interval);
            |gaps| <= 1 && (gaps != [] ==> WellFormedGap(gaps[0]) && |gaps[0].missing| == gaps[0].slotCount)
  {
  }

  /** The detector on an ascending list lists a slot exactly when it is missing. */
  lemma {:induction false} DetectorListsMissing(times: seq<int>, interval: Interval, t: int)
    requires Ascending(times)
    ensures t in Flat(GapsOf(times, interval)) <==> IsMissing(Elements(times), interval, t)
    decreases |times|
  {
    if |times| < 2 {
      assert forall x, y :: x in times && y in times ==> x == y;
    } else {
      var shorter := times[..|times| - 1];
      var p, c := times[|times| - 2], times[|times| - 1];
      DetectorListsMissing(shorter, interval, t);
      SlotsAre(p, c, interval, t);
      FlatAppend(GapsOf(shorter, interval), GapBetween(p, c, interval));
      MissingExtends(times, interval, t);
    }
  }

  /** One later candle: the slots before the previous last one are judged as before. */
  lemma MissingExtends(times: seq<int>, interval: Interval, t: int)
    requires Ascending(times) && |times| >= 2
    ensures var p, c := times[|times| - 2], times[|times| - 1];
            IsMissing(Elements(times), interval, t) <==>
            IsMissing(Elements(times[..|times| - 1]), interval, t) || (p < t < c && OnGrid(t - p, interval))
  {
    var shorter := times[..|times| - 1];
    var p, c := times[|times| - 2], times[|times| - 1];
    assert shorter[|times| - 2] == p && p in shorter && c in times;
    assert Elements(times) == Elements(shorter) + {c};
    if IsMissing(Elements(times), interval, t) {
      LaterCandleAdds(Elements(shorter), interval, p, c, t);
    }
    if IsMissing(Elements(shorter), interval, t) || (p < t < c && OnGrid(t - p, interval)) {
      LaterCandleKeeps(Elements(shorter), interval, p, c, t);
    }
  }

  lemma LaterCandleAdds(fewer: set<int>, interval: Interval, p: int, c: int, t: int)
    requires p in fewer && p < c && forall x :: x in fewer ==> x <= p
    requires IsMissing(fewer + {c}, interval, t)
    ensures IsMissing(fewer, interval, t) || (p < t < c && OnGrid(t - p, interval))
  {
    var q :| Follows(fewer + {c}, interval, q, t);
    if t < p {
      assert Follows(fewer, interval, q, t);
    } else {
      assert p in fewer + {c} && c in fewer + {c};
      var later :| later in fewer + {c} && t < later;
      assert q == p;
    }
  }

  lemma LaterCandleKeeps(fewer: set<int>, interval: Interval, p: int, c: int, t: int)
    requires p in fewer && p < c && forall x :: x in fewer ==> x <= p
    requires IsMissing(fewer, interval, t) || (p < t < c && OnGrid(t - p, interval))
    ensures IsMissing(fewer + {c}, interval, t)
  {
    assert c in fewer + {c};
    if IsMissing(fewer, interval, t) {
      var q :| Follows(fewer, interval, q, t);
      assert Follows(fewer + {c}, interval, q, t);
    } else {
      assert Follows(fewer + {c}, interval, p, t);
    }
  }

  lemma MissingIff(times: set<int>, interval: Interval)
    ensures Ascending(Missing(times, interval))
    ensures forall t :: t in Missing(times, interval) <==> IsMissing(times, interval, t)
  {
    SortedIs(times);
    DetectorAscends(Sorted(times), interval);
    forall t
      ensures t in Missing(times, interval) <==> IsMissing(times, interval, t)
    {
      DetectorListsMissing(Sorted(times), interval, t);
    }
  }

  lemma {:induction false} LatestBefore(times: set<int>, x: int, t: int) returns (p: int)
    requires x in times && x < t && t !in times
    ensures p in times && x <= p < t && forall q :: q in times ==> q <= p || t < q
    decreases times
  {
    if y :| y in times && x < y < t {
      p := LatestBefore(times - {x}, y, t);
      assert forall q :: q in times ==> q == x || q in times - {x};
    } else {
      p := x;
    }
  }

  /** Filling missing slots removes exactly those slots and creates no new ones. */
  lemma FillingRemoves(times: set<int>, interval: Interval, filled: set<int>, t: int)
    requires forall w :: w in filled ==> IsMissing(times, interval, w)
    requires IsMissing(times, interval, t) && t !in filled
    ensures IsMissing(times + filled, interval, t)
  {
    var more := times + filled;
    var p :| Follows(times, interval, p, t);
    var q := LatestBefore(more, p, t);
    if q != p {
      var r :| Follows(times, interval, r, q);
      assert r == p;
      GridDiffers(t - p, q - p, interval);
      assert t - q == t - p - (q - p);
    }
    assert Follows(more, interval, q, t);
    var c :| c in times && t < c;
    assert c in more;
  }

  lemma FillingCreatesNone(times: set<int>, interval: Interval, filled: set<int>, t: int)
    requires forall w :: w in filled ==> IsMissing(times, interval, w)
    requires IsMissing(times + filled, interval, t)
    ensures IsMissing(times, interval, t) && t !in filled
  {
    var q :| Follows(times + filled, interval, q, t);
    var c :| c in times + filled && t < c;
    if c in filled {
      var later :| later in times && c < later;
      assert t < later;
    }
    StillFollows(times, interval, filled, q, t);
  }

  lemma GridAdds(a: int, b: int, interval: Interval)
    requires OnGrid(a, interval) && OnGrid(b, interval)
    ensures OnGrid(a + b, interval)
  {
    var m :| a == Steps(m, interval);
    var n :| b == Steps(n, interval);
    assert a + b == Steps(m + n, interval);
  }

  lemma GridDiffers(a: int, b: int, interval: Interval)
    requires OnGrid(a, interval) && OnGrid(b, interval)
    ensures OnGrid(a - b, interval)
  {
    var m :| a == Steps(m, interval);
    var n :| b == Steps(n, interval);
    assert a - b == Steps(m - n, interval);
  }

  lemma StillFollows(times: set<int>, interval: Interval, filled: set<int>, q: int, t: int)
    requires forall w :: w in filled ==> IsMissing(times, interval, w)
    requires Follows(times + filled, interval, q, t)
    ensures t !in filled && exists p :: Follows(times, interval, p, t)
  {
    assert t !in times + filled;
    if q in times {
      assert Follows(times, interval, q, t);
    } else {
      assert IsMissing(times, interval, q);
      var p :| Follows(times, interval, p, q);
      GridAdds(q - p, t - q, interval);
      hide OnGrid;
      assert forall x :: x in times ==> x in times + filled;
      assert Follows(times, interval, p, t);
    }
  }

  lemma {:induction false} AscendingCardinality(s: seq<int>)
    requires Ascending(s)
    ensures |Elements(s)| == |s|
  {
    if s != [] {
      var shorter := s[..|s| - 1];
      AscendingCardinality(shorter);
      assert Elements(s) == Elements(shorter) + {s[|s| - 1]};
    }
  }

  /** Conservation: missing slots before = missing slots after + distinct slots filled. */
  lemma FillingLowersTotal(times: set<int>, interval: Interval, filled: set<int>)
    requires forall w :: w in filled ==> w in Missing(times, interval)
    ensures |Missing(times + filled, interval)| + |filled| == |Missing(times, interval)|
    ensures forall t :: t in Missing(times + filled, interval) <==> t in Missing(times, interval) && t !in filled
  {
    MissingIff(times, interval);
    MissingIff(times + filled, interval);
    forall t
      ensures t in Missing(times + filled, interval) <==> t in Missing(times, interval) && t !in filled
    {
      if t in Missing(times, interval) && t !in filled { FillingRemoves(times, interval, filled, t); }
      if t in Missing(times + filled, interval) { FillingCreatesNone(times, interval, filled, t); }
    }
    var before, after := Elements(Missing(times, interval)), Elements(Missing(times + filled, interval));
    AscendingCardinality(Missing(times, interval));
    AscendingCardinality(Missing(times + filled, interval));
    assert before == after + filled;
    assert after !! filled;
  }

  lemma PruningCreatesNone(times: set<int>, interval: Interval, cutoff: int, kept: set<int>, t: int)
    requires kept == set x | x in times && cutoff < x
    requires IsMissing(kept, interval, t)
    ensures IsMissing(times, interval, t)
  {
    var p :| Follows(kept, interval, p, t);
    assert forall q :: q in times ==> q <= cutoff || q in kept;
    assert Follows(times, interval, p, t);
    var c :| c in kept && t < c;
    assert c in times;
  }

  /** Dropping everything up to a cutoff opens no gap. */
  lemma PruningOpensNoGap(times: set<int>, interval: Interval, cutoff: int, kept: set<int>)
    requires kept == set x | x in times && cutoff < x
    ensures forall t :: t in Missing(kept, interval) ==> t in Missing(times, interval)
  {
    MissingIff(times, interval);
    MissingIff(kept, interval);
    forall t | IsMissing(kept, interval, t)
      ensures IsMissing(times, interval, t)
    {
      PruningCreatesNone(times, interval, cutoff, kept, t);
    }
  }

  // ---------------------------------------------------------------- repair

  /** reduce(): the gap with most slots, the earliest of those. */
  function Widest(gaps: seq<Gap>): (g: Gap)
    requires gaps != []
    ensures g in gaps
    ensures forall h :: h in gaps ==> h.slotCount < g.slotCount || (h.slotCount == g.slotCount && g.start <= h.start)
  {
    if |gaps| == 1 then gaps[0]
    else
      var selected, candidate := Widest(gaps[..|gaps| - 1]), gaps[|gaps| - 1];
      if candidate.slotCount > selected.slotCount
         || (candidate.slotCount == selected.slotCount && candidate.start < selected.start)
      then candidate else selected
  }

  datatype Fetched = Fetched(timestamp: int, open: Number, high: Number, low: Number, close: Number, volume: Option<Number>)

  predicate Usable(missing: seq<int>, f: Fetched) {
    f.timestamp in missing && HasValidOhlc(f.open, f.high, f.low, f.close)
  }

  function RepairInput(f: Fetched): Input {
    Input(f.timestamp, f.open, f.high, f.low, f.close, f.volume, None, f.volume, true)
  }

  /** The upserts one response turns into. */
  function RepairInputs(missing: seq<int>, candles: seq<Fetched>): (r: seq<Input>)
    ensures forall u :: u in r <==> exists f :: f in candles && Usable(missing, f) && u == RepairInput(f)
  {
    if candles == [] then []
    else
      var f := candles[|candles| - 1];
      RepairInputs(missing, candles[..|candles| - 1]) + if Usable(missing, f) then [RepairInput(f)] else []
  }

  lemma RepairInputsAccepted(missing: seq<int>, candles: seq<Fetched>)
    ensures forall u :: u in RepairInputs(missing, candles) ==> Accepted(u) && u.replaceExisting
  {
  }

  /** The upserts the first n candles of a response turn into. */
  function InputsTo(missing: seq<int>, candles: seq<Fetched>, n: nat): seq<Input>
    requires n <= |candles|
  {
    RepairInputs(missing, candles[..n])
  }

  lemma InputsEnds(missing: seq<int>, candles: seq<Fetched>)
    ensures InputsTo(missing, candles, 0) == []
    ensures InputsTo(missing, candles, |candles|) == RepairInputs(missing, candles)
  {
    assert candles[..|candles|] == candles;
  }

  ghost function Stamps(inputs: seq<Input>): set<int> {
    set u | u in inputs :: u.timestamp
  }

  lemma {:induction false} StampsBounded(inputs: seq<Input>)
    ensures |Stamps(inputs)| <= |inputs|
    ensures Stamps(inputs) == {} <==> inputs == []
  {
    if inputs != [] {
      var shorter, last := inputs[..|inputs| - 1], inputs[|inputs| - 1];
      StampsBounded(shorter);
      assert Stamps(inputs) == Stamps(shorter) + {last.timestamp};
    }
  }

  /** row is the candle one of these inputs stores at t. */
  ghost predicate StoredFrom(inputs: seq<Input>, t: int, row: Candle) {
    exists u :: u in inputs && u.timestamp == t && Accepted(u) && row == NewCandle(u)
  }

  lemma {:induction false} ReplacementsWrite(rows: Rows, inputs: seq<Input>)
    requires forall u :: u in inputs ==> Accepted(u) && u.replaceExisting
    ensures var after := UpsertAll(rows, inputs);
            && after.Keys == rows.Keys + Stamps(inputs)
            && (forall t :: t in rows && t !in Stamps(inputs) ==> after[t] == rows[t])
            && (forall t :: t in Stamps(inputs) ==> StoredFrom(inputs, t, after[t]))
  {
    if inputs != [] {
      var shorter, last := inputs[..|inputs| - 1], inputs[|inputs| - 1];
      ReplacementsWrite(rows, shorter);
      assert last in inputs && forall u :: u in inputs <==> u in shorter || u == last;
      var before, after := UpsertAll(rows, shorter), UpsertAll(rows, inputs);
      assert Stamps(inputs) == Stamps(shorter) + {last.timestamp};
      forall t | t in Stamps(inputs)
        ensures StoredFrom(inputs, t, after[t])
      {
        if t != last.timestamp {
          assert StoredFrom(shorter, t, before[t]);
        }
      }
    }
  }

  lemma {:induction false} GapSlotsListed(gaps: seq<Gap>, gap: Gap, t: int)
    requires gap in gaps && t in gap.missing
    ensures t in Flat(gaps)
  {
    if gap != gaps[|gaps| - 1] {
      assert gap in gaps[..|gaps| - 1];
      GapSlotsListed(gaps[..|gaps| - 1], gap, t);
    }
  }

  function GapsNow(rows: Rows, interval: Interval): seq<Gap> {
    GapsOf(Sorted(rows.Keys), interval)
  }

  ghost function MissingCount(rows: Rows, interval: Interval): nat {
    |Missing(rows.Keys, interval)|
  }

  /** now is before plus new candles: nothing stored was changed or lost. */
  ghost predicate Grew(before: Rows, now: Rows) {
    before.Keys <= now.Keys && forall t :: t in before ==> now[t] == before[t]
  }

  /** The timestamps a repair added. */
  ghost function Filled(before: Rows, now: Rows): set<int> {
    now.Keys - before.Keys
  }

  /** The fetched prices; the fetched volume twice; no market cap. */
  predicate ShowsFetched(row: Candle, f: Fetched) {
    && f.open == Finite(row.open) && f.high == Finite(row.high)
    && f.low == Finite(row.low) && f.close == Finite(row.close)
    && row.volume == f.volume && row.totalVolume == f.volume && row.marketCap.None?
  }

  /** row shows a valid candle of this response, stamped t. */
  ghost predicate SuppliedBy(candles: seq<Fetched>, t: int, row: Candle) {
    exists f :: f in candles && f.timestamp == t && HasValidOhlc(f.open, f.high, f.low, f.close) && ShowsFetched(row, f)
  }

  /** Of the first n candles of a response the i-th is the last usable one stamped t. */
  ghost predicate LastUsable(missing: seq<int>, candles: seq<Fetched>, n: nat, t: int, i: nat)
    requires n <= |candles|
  {
    && i < n && candles[i].timestamp == t && Usable(missing, candles[i])
    && forall j :: i < j < n && candles[j].timestamp == t ==> !Usable(missing, candles[j])
  }

  lemma {:induction false} LastUsableIs(missing: seq<int>, candles: seq<Fetched>, n: nat, i: nat) returns (k: nat)
    requires i < n <= |candles| && LastUsable(missing, candles, n, candles[i].timestamp, i)
    ensures var inputs := InputsTo(missing, candles, n);
            && k < |inputs| && inputs[k] == RepairInput(candles[i])
            && forall j :: k < j < |inputs| ==> inputs[j].timestamp != candles[i].timestamp
  {
    var inputs := InputsTo(missing, candles, n);
    InputsNext(missing, candles, n - 1);
    hide InputsTo;
    if i == n - 1 {
      k := |inputs| - 1;
    } else {
      k := LastUsableIs(missing, candles, n - 1, i);
    }
  }

  lemma InputsNext(missing: seq<int>, candles: seq<Fetched>, i: nat)
    requires i < |candles|
    ensures InputsTo(missing, candles, i + 1) ==
            InputsTo(missing, candles, i) + (if Usable(missing, candles[i]) then [RepairInput(candles[i])] else [])
  {
    hide Usable;
    Prefixes(candles, i);
  }

  lemma {:induction false} LastUsableExists(missing: seq<int>, candles: seq<Fetched>, n: nat, t: int) returns (i: nat)
    requires n <= |candles| && t in Stamps(InputsTo(missing, candles, n))
    ensures LastUsable(missing, candles, n, t, i)
  {
    hide Usable;
    if n == 0 {
      InputsEnds(missing, candles);
      assert false;
    }
    InputsNext(missing, candles, n - 1);
    if Usable(missing, candles[n - 1]) && candles[n - 1].timestamp == t {
      i := n - 1;
    } else {
      i := LastUsableExists(missing, candles, n - 1, t);
    }
  }

  /** What a response stores in each slot it fills: the last usable candle written for that slot, column by column. */
  lemma ResponseStores(rows: Rows, missing: seq<int>, candles: seq<Fetched>, n: nat, t: int) returns (i: nat)
    requires n <= |candles| && t in Stamps(InputsTo(missing, candles, n))
    ensures LastUsable(missing, candles, n, t, i)
    ensures var after := UpsertAll(rows, InputsTo(missing, candles, n)); t in after && ShowsFetched(after[t], candles[i])
  {
    i := LastUsableExists(missing, candles, n, t);
    var k := LastUsableIs(missing, candles, n, i);
    RepairInputsAccepted(missing, candles[..n]);
    hide UpsertAll, RepairInputs, LastUsable;
    LastReplacementStays(rows, InputsTo(missing, candles, n), k);
  }

  /** Grown by asked-for, missing slots only, each now holding a valid candle of the response. */
  ghost predicate FilledFrom(before: Rows, now: Rows, interval: Interval, gap: Gap, candles: seq<Fetched>) {
    && Grew(before, now)
    && forall t :: t in Filled(before, now) ==>
         t in gap.missing && t in Missing(before.Keys, interval) && SuppliedBy(candles, t, now[t])
  }

  lemma GapSlotsMissing(rows: Rows, interval: Interval, gap: Gap)
    requires gap in GapsNow(rows, interval)
    ensures forall t :: t in gap.missing ==> t in Missing(rows.Keys, interval) && t !in rows
  {
    MissingIff(rows.Keys, interval);
    forall t | t in gap.missing
      ensures t in Missing(rows.Keys, interval) && t !in rows
    {
      GapSlotsListed(GapsNow(rows, interval), gap, t);
      assert IsMissing(rows.Keys, interval, t);
    }
  }

  lemma ResponseFills(rows: Rows, interval: Interval, gap: Gap, candles: seq<Fetched>, n: nat)
    requires gap in GapsNow(rows, interval) && n <= |candles|
    ensures var inputs := InputsTo(gap.missing, candles, n);
            && FilledFrom(rows, UpsertAll(rows, inputs), interval, gap, candles)
            && Filled(rows, UpsertAll(rows, inputs)) == Stamps(inputs)
  {
    var inputs := InputsTo(gap.missing, candles, n);
    var after := UpsertAll(rows, inputs);
    GapSlotsMissing(rows, interval, gap);
    RepairInputsAccepted(gap.missing, candles[..n]);
    ReplacementsWrite(rows, inputs);
    forall t | t in Stamps(inputs)
      ensures t in gap.missing && SuppliedBy(candles, t, after[t])
    {
      var i := ResponseStores(rows, gap.missing, candles, n, t);
      assert candles[i] in candles;
    }
  }

  lemma NothingUpserted(rows: Rows)
    ensures UpsertAll(rows, []) == rows
  {
  }

  lemma NothingUsable(rows: Rows, missing: seq<int>, candles: seq<Fetched>, n: nat)
    requires n <= |candles|
    ensures InputsTo(missing, candles, n) == [] ==> UpsertAll(rows, InputsTo(missing, candles, n)) == rows
    ensures n == |candles| && InputsTo(missing, candles, n) == [] ==> forall f :: f in candles ==> !Usable(missing, f)
  {
    if n == |candles| && InputsTo(missing, candles, n) == [] {
      assert candles[..n] == candles;
      forall f | f in candles
        ensures !Usable(missing, f)
      {
        assert Usable(missing, f) ==> RepairInput(f) in RepairInputs(missing, candles);
      }
    }
  }

  lemma RepairInputsExtend(rows: Rows, missing: seq<int>, candles: seq<Fetched>, i: nat)
    requires i < |candles|
    ensures var was, now := InputsTo(missing, candles, i), InputsTo(missing, candles, i + 1);
            if Usable(missing, candles[i])
            then |now| == |was| + 1 && UpsertAll(rows, now) == Upserted(UpsertAll(rows, was), RepairInput(candles[i]))
            else |now| == |was| && UpsertAll(rows, now) == UpsertAll(rows, was)
  {
    Prefixes(candles, i);
    var was, now := InputsTo(missing, candles, i), InputsTo(missing, candles, i + 1);
    if Usable(missing, candles[i]) {
      assert now[..|now| - 1] == was;
    } else {
      assert now == was;
    }
  }

  // ---------------------------------------------------------------- whole repairs

  /** One round of the loop: the widest gap of the series is asked for, part of the response is written. */
  ghost predicate Round(was: Rows, now: Rows, interval: Interval, candles: seq<Fetched>) {
    && GapsNow(was, interval) != []
    && FilledFrom(was, now, interval, Widest(GapsNow(was, interval)), candles)
  }

  /** The states a repair went through, one round per fetch. */
  ghost predicate History(states: seq<Rows>, interval: Interval, responses: nat -> seq<Fetched>) {
    states != [] && forall i :: 0 <= i < |states| - 1 ==> Round(states[i], states[i + 1], interval, responses(i))
  }

  /** Each of the first n rounds filled a slot. */
  ghost predicate Productive(states: seq<Rows>, n: nat) {
    n < |states| && forall i :: 0 <= i < n ==> Filled(states[i], states[i + 1]) != {}
  }

  /** row was stored at t from one of the first n responses. */
  ghost predicate Supplied(responses: nat -> seq<Fetched>, n: nat, t: int, row: Candle) {
    exists i: nat :: i < n && SuppliedBy(responses(i), t, row)
  }

  lemma FillingCounts(before: Rows, now: Rows, interval: Interval)
    requires Grew(before, now)
    requires forall t :: t in Filled(before, now) ==> t in Missing(before.Keys, interval)
    ensures MissingCount(now, interval) + |Filled(before, now)| == MissingCount(before, interval)
  {
    assert now.Keys == before.Keys + Filled(before, now);
    FillingLowersTotal(before.Keys, interval, Filled(before, now));
  }

  /** A round that fills d distinct slots lowers the number of missing slots by exactly d. */
  lemma RoundLowersByFilled(was: Rows, now: Rows, interval: Interval, candles: seq<Fetched>)
    requires Round(was, now, interval, candles)
    ensures MissingCount(now, interval) + |Filled(was, now)| == MissingCount(was, interval)
  {
    hide SuppliedBy, GapsNow, Missing;
    FillingCounts(was, now, interval);
  }

  /** Slots filled later were already missing at the start. */
  lemma FilledSplits(first: set<int>, mid: set<int>, last: set<int>, interval: Interval)
    requires first <= mid <= last
    requires forall t :: t in mid - first ==> t in Missing(first, interval)
    requires forall t :: t in last - mid ==> t in Missing(mid, interval)
    ensures forall t :: t in last - first ==> t in Missing(first, interval)
  {
    hide Missing;
    assert mid == first + (mid - first);
    FillingLowersTotal(first, interval, mid - first);
  }

  /** What a repair has done when it has come to `last`, after n fetches. */
  ghost predicate Conserves(first: Rows, last: Rows, interval: Interval, responses: nat -> seq<Fetched>, n: nat) {
    && Grew(first, last)
    && (forall t :: t in Filled(first, last) ==>
          t in Missing(first.Keys, interval) && Supplied(responses, n, t, last[t]))
  }

  lemma ConservesNext(first: Rows, mid: Rows, last: Rows, interval: Interval, responses: nat -> seq<Fetched>, n: nat)
    requires Conserves(first, mid, interval, responses, n) && Round(mid, last, interval, responses(n))
    ensures Conserves(first, last, interval, responses, n + 1)
  {
    hide SuppliedBy, GapsNow, Missing;
    FilledSplits(first.Keys, mid.Keys, last.Keys, interval);
    forall t | t in Filled(first, last)
      ensures Supplied(responses, n + 1, t, last[t])
    {
      if t in Filled(first, mid) {
        var i: nat :| i < n && SuppliedBy(responses(i), t, mid[t]);
        assert i < n + 1 && SuppliedBy(responses(i), t, last[t]);
      } else {
        assert SuppliedBy(responses(n), t, last[t]);
      }
    }
  }

  lemma {:induction false} ConservesUpTo(states: seq<Rows>, interval: Interval, responses: nat -> seq<Fetched>, k: nat)
    requires History(states, interval, responses) && k < |states|
    ensures Conserves(states[0], states[k], interval, responses, k)
    decreases k
  {
    hide Round, Missing, Supplied;
    if k > 0 {
      hide Conserves;
      ConservesUpTo(states, interval, responses, k - 1);
      assert Round(states[k - 1], states[k], interval, responses(k - 1));
      ConservesNext(states[0], states[k - 1], states[k], interval, responses, k - 1);
    }
  }

  /**
   * A whole repair only fills slots that were missing at its start, each with a valid candle some
   * response supplied; nothing stored before changes; and missing before = missing after + filled.
   */
  lemma RepairConserves(states: seq<Rows>, interval: Interval, responses: nat -> seq<Fetched>)
    requires History(states, interval, responses)
    ensures var first, last := states[0], states[|states| - 1];
            && Grew(first, last)
            && (forall t :: t in Filled(first, last) ==>
                t in Missing(first.Keys, interval) && Supplied(responses, |states| - 1, t, last[t]))
            && MissingCount(last, interval) + |Filled(first, last)| == MissingCount(first, interval)
  {
    ConservesUpTo(states, interval, responses, |states| - 1);
    hide Missing, MissingCount, Supplied, Round;
    FillingCounts(states[0], states[|states| - 1], interval);
  }

  lemma NoGapsIffNoneMissing(rows: Rows, interval: Interval)
    ensures GapsNow(rows, interval) == [] <==> Missing(rows.Keys, interval) == []
  {
    var gaps := GapsNow(rows, interval);
    DetectorCounts(Sorted(rows.Keys), interval);
    if gaps != [] {
      assert gaps[|gaps| - 1] in gaps && gaps[|gaps| - 1].missing[0] in gaps[|gaps| - 1].missing;
      GapSlotsListed(gaps, gaps[|gaps| - 1], gaps[|gaps| - 1].missing[0]);
    }
  }

  /** Every slot missing at the start is stored at the end exactly when no gap is left. */
  lemma StartGapsClosedIff(states: seq<Rows>, interval: Interval, responses: nat -> seq<Fetched>)
    requires History(states, interval, responses)
    ensures var first, last := states[0], states[|states| - 1];
            (forall t :: t in Missing(first.Keys, interval) ==> t in last) <==> GapsNow(last, interval) == []
  {
    assert states != [];
    hide History, GapsNow, Missing, Grew;
    var first, last := states[0], states[|states| - 1];
    RepairConserves(states, interval, responses);
    NoGapsIffNoneMissing(last, interval);
    GrewBy(first, last);
    FillingLowersTotal(first.Keys, interval, Filled(first, last));
    MissingAreAbsent(first.Keys, interval);
    NoneLeftIff(Missing(first.Keys, interval), Missing(last.Keys, interval), first.Keys, Filled(first, last));
  }

  lemma GrewBy(first: Rows, last: Rows)
    requires Grew(first, last)
    ensures last.Keys == first.Keys + Filled(first, last)
  {
  }

  lemma MissingAreAbsent(times: set<int>, interval: Interval)
    ensures forall t :: t in Missing(times, interval) ==> t !in times
  {
    MissingIff(times, interval);
    hide Missing;
    forall t | t in Missing(times, interval)
      ensures t !in times
    {
      assert IsMissing(times, interval, t);
    }
  }

  lemma NoneLeftIff(a: seq<int>, b: seq<int>, first: set<int>, filled: set<int>)
    requires forall t :: t in b <==> t in a && t !in filled
    requires forall t :: t in a ==> t !in first
    ensures (forall t :: t in a ==> t in first + filled) <==> b == []
  {
    if b == [] {
      forall t | t in a
        ensures t in first + filled
      {
        assert t !in b;
      }
    } else {
      var t := b[0];
      assert t in b;
      assert t in a && t !in first + filled;
    }
  }

  /** A series with a gap, and a fetcher that never answers: the gap is counted as repaired with nothing stored. */
  lemma GapsCountedThoughNothingStored(c: Candle)
    ensures var rows: Rows := map[0 := c, 120_000 := c];
            && History([rows, rows], Minute, n => [])
            && |GapsNow(rows, Minute)| > 0 && 60_000 in Missing(rows.Keys, Minute) && 60_000 !in rows
  {
    var rows: Rows := map[0 := c, 120_000 := c];
    assert 60_000 == Steps(1, Minute);
    assert Follows(rows.Keys, Minute, 0, 60_000) && 120_000 in rows.Keys;
    assert IsMissing(rows.Keys, Minute, 60_000);
    MissingIff(rows.Keys, Minute);
    NoGapsIffNoneMissing(rows, Minute);
    hide Missing, GapsNow, IsMissing;
    assert Missing(rows.Keys, Minute) != [];
    assert Grew(rows, rows) && Filled(rows, rows) == {};
    assert Round(rows, rows, Minute, []);
  }

  // ---------------------------------------------------------------- candles written and slots filled

  /** The upserts of one round: the usable candles of a first part of the response, in order. */
  ghost predicate IsBatch(batch: seq<Input>, was: Rows, now: Rows, interval: Interval, candles: seq<Fetched>) {
    && GapsNow(was, interval) != []
    && (exists n: nat :: n <= |candles| && batch == InputsTo(Widest(GapsNow(was, interval)).missing, candles, n))
    && now == UpsertAll(was, batch)
  }

  /** What each round of a history wrote. */
  ghost predicate Batches(states: seq<Rows>, batches: seq<seq<Input>>, interval: Interval, responses: nat -> seq<Fetched>) {
    && |states| == |batches| + 1
    && forall i :: 0 <= i < |batches| ==> IsBatch(batches[i], states[i], states[i + 1], interval, responses(i))
  }

  function Written(batches: seq<seq<Input>>): nat {
    if batches == [] then 0 else Written(batches[..|batches| - 1]) + |batches[|batches| - 1]|
  }

  /** No timestamp twice. */
  ghost predicate NoRepeats(batch: seq<Input>) {
    forall i, j :: 0 <= i < j < |batch| ==> batch[i].timestamp != batch[j].timestamp
  }

  lemma {:induction false} StampsCountIff(batch: seq<Input>)
    ensures |Stamps(batch)| <= |batch| && (|Stamps(batch)| == |batch| <==> NoRepeats(batch))
  {
    if batch != [] {
      var shorter, last := batch[..|batch| - 1], batch[|batch| - 1];
      StampsCountIff(shorter);
      assert batch == shorter + [last];
      assert Stamps(batch) == Stamps(shorter) + {last.timestamp};
      RepeatsSnoc(shorter, last);
      hide NoRepeats;
      if last.timestamp in Stamps(shorter) {
        assert Stamps(batch) == Stamps(shorter);
      }
    }
  }

  lemma RepeatsSnoc(shorter: seq<Input>, last: Input)
    ensures NoRepeats(shorter + [last]) <==> NoRepeats(shorter) && last.timestamp !in Stamps(shorter)
  {
    var batch := shorter + [last];
    if last.timestamp in Stamps(shorter) {
      var u :| u in shorter && u.timestamp == last.timestamp;
      var i :| 0 <= i < |shorter| && shorter[i] == u;
      assert batch[i].timestamp == batch[|shorter|].timestamp;
    }
    if NoRepeats(batch) {
      assert forall i :: 0 <= i < |shorter| ==> shorter[i] == batch[i];
    }
    forall i | 0 <= i < |shorter|
      ensures shorter[i].timestamp in Stamps(shorter)
    {
      assert shorter[i] in shorter;
    }
  }

  lemma BatchFills(batch: seq<Input>, was: Rows, now: Rows, interval: Interval, candles: seq<Fetched>)
    requires IsBatch(batch, was, now, interval, candles)
    ensures Filled(was, now) == Stamps(batch) && was.Keys <= now.Keys
  {
    var gap := Widest(GapsNow(was, interval));
    var n: nat :| n <= |candles| && batch == InputsTo(gap.missing, candles, n);
    hide GapsNow;
    ResponseFills(was, interval, gap, candles, n);
  }

  /** A round stores in each slot it fills the last usable candle among those written, column by column. */
  lemma RoundStoresLast(batch: seq<Input>, was: Rows, now: Rows, interval: Interval, candles: seq<Fetched>) returns (n: nat)
    requires IsBatch(batch, was, now, interval, candles)
    ensures n <= |candles| && batch == InputsTo(Widest(GapsNow(was, interval)).missing, candles, n)
    ensures forall t :: t in Filled(was, now) ==>
              exists i: nat :: LastUsable(Widest(GapsNow(was, interval)).missing, candles, n, t, i) && ShowsFetched(now[t], candles[i])
  {
    var missing := Widest(GapsNow(was, interval)).missing;
    n :| n <= |candles| && batch == InputsTo(missing, candles, n);
    BatchFills(batch, was, now, interval, candles);
    hide GapsNow, InputsTo, UpsertAll, LastUsable, ShowsFetched;
    forall t | t in Filled(was, now)
      ensures exists i: nat :: LastUsable(missing, candles, n, t, i) && ShowsFetched(now[t], candles[i])
    {
      var i := ResponseStores(was, missing, candles, n, t);
    }
  }

  lemma {:induction false} OnlyGrows(states: seq<Rows>, batches: seq<seq<Input>>, interval: Interval, responses: nat -> seq<Fetched>)
    requires Batches(states, batches, interval, responses)
    ensures states[0].Keys <= states[|batches|].Keys
    decreases |batches|
  {
    hide IsBatch;
    if batches != [] {
      var n := |batches| - 1;
      OnlyGrows(states[..n + 1], batches[..n], interval, responses);
      BatchFills(batches[n], states[n], states[n + 1], interval, responses(n));
    }
  }

  /** The slots filled are at most the candles written, and as many exactly when no round wrote a timestamp twice. */
  lemma {:induction false} WrittenCountsFilledIff(
    states: seq<Rows>, batches: seq<seq<Input>>, interval: Interval, responses: nat -> seq<Fetched>)
    requires Batches(states, batches, interval, responses)
    ensures |states| == |batches| + 1 && |Filled(states[0], states[|batches|])| <= Written(batches)
    ensures |Filled(states[0], states[|batches|])| == Written(batches) <==> forall b :: b in batches ==> NoRepeats(b)
    decreases |batches|
  {
    hide IsBatch, NoRepeats, Batches;
    if batches != [] {
      var n := |batches| - 1;
      var shorter, last := batches[..n], batches[n];
      BatchesShorter(states, batches, interval, responses);
      WrittenCountsFilledIff(states[..n + 1], shorter, interval, responses);
      OnlyGrows(states[..n + 1], shorter, interval, responses);
      BatchFills(last, states[n], states[n + 1], interval, responses(n));
      hide Filled, Stamps;
      StampsCountIff(last);
      FilledAdds(states[0], states[n], states[n + 1]);
      assert batches == shorter + [last];
    } else {
      BatchesLength(states, batches, interval, responses);
    }
  }

  lemma BatchesShorter(
    states: seq<Rows>, batches: seq<seq<Input>>, interval: Interval, responses: nat -> seq<Fetched>)
    requires Batches(states, batches, interval, responses) && batches != []
    ensures var n := |batches| - 1;
            && |states| == n + 2
            && Batches(states[..n + 1], batches[..n], interval, responses)
            && IsBatch(batches[n], states[n], states[n + 1], interval, responses(n))
  {
    hide IsBatch;
  }

  lemma FilledAdds(first: Rows, mid: Rows, last: Rows)
    requires first.Keys <= mid.Keys <= last.Keys
    ensures |Filled(first, last)| == |Filled(first, mid)| + |Filled(mid, last)|
  {
    assert Filled(first, last) == Filled(first, mid) + Filled(mid, last);
  }

  lemma BatchesExtend(
    states: seq<Rows>, batches: seq<seq<Input>>, now: Rows, batch: seq<Input>, interval: Interval,
    responses: nat -> seq<Fetched>)
    requires Batches(states, batches, interval, responses)
    requires IsBatch(batch, states[|states| - 1], now, interval, responses(|batches|))
    ensures Batches(states + [now], batches + [batch], interval, responses)
    ensures Written(batches + [batch]) == Written(batches) + |batch|
  {
    hide IsBatch;
    assert (batches + [batch])[..|batches|] == batches;
  }

  /** If every round but the last filled something, fetches are bounded by the slots missing at the start. */
  lemma FetchesBounded(states: seq<Rows>, interval: Interval, responses: nat -> seq<Fetched>)
    requires History(states, interval, responses)
    requires Productive(states, AllButLast(|states| - 1))
    ensures |states| - 1 + MissingCount(states[|states| - 1], interval) <= MissingCount(states[0], interval) + 1
  {
    var n := |states| - 1;
    EveryRoundFills(states, interval, responses, AllButLast(n));
    hide Round, MissingCount, Productive;
    if n > 0 {
      RoundLowersByFilled(states[n - 1], states[n], interval, responses(n - 1));
    }
  }

  /** All rounds but the last. */
  function AllButLast(n: nat): nat { if n == 0 then 0 else n - 1 }

  lemma {:induction false} EveryRoundFills(states: seq<Rows>, interval: Interval, responses: nat -> seq<Fetched>, n: nat)
    requires History(states, interval, responses)
    requires Productive(states, n)
    ensures n + MissingCount(states[n], interval) <= MissingCount(states[0], interval)
    decreases n
  {
    hide Round, MissingCount, Filled;
    if n > 0 {
      assert Round(states[n - 1], states[n], interval, responses(n - 1)) && Filled(states[n - 1], states[n]) != {};
      RoundLowersByFilled(states[n - 1], states[n], interval, responses(n - 1));
      EveryRoundFills(states, interval, responses, n - 1);
    }
  }

  lemma NoQuestions(permits: nat -> bool)
    ensures Answered(permits, 0, false)
  {
  }

  lemma NextQuestion(permits: nat -> bool, asked: nat)
    requires Answered(permits, asked, false)
    ensures Answered(permits, asked + 1, !permits(asked))
  {
  }

  /** Where a repair stands: its states, what each round wrote, and the count reported for it. */
  ghost predicate Progress(states: seq<Rows>, batches: seq<seq<Input>>, interval: Interval, responses: nat -> seq<Fetched>,
                           first: Rows, now: Rows, repaired: nat, whole: bool) {
    && History(states, interval, responses) && states[0] == first && states[|states| - 1] == now
    && Batches(states, batches, interval, responses) && repaired == Written(batches)
    && Productive(states, AllButLast(|states| - 1))
    && (whole ==> WholeRounds(states, interval, responses))
  }

  lemma ProgressStarts(rows: Rows, interval: Interval, responses: nat -> seq<Fetched>)
    ensures Progress([rows], [], interval, responses, rows, rows, 0, true) && Productive([rows], 0)
  {
  }

  lemma ProgressNext(states: seq<Rows>, batches: seq<seq<Input>>, interval: Interval, responses: nat -> seq<Fetched>,
                     first: Rows, was: Rows, repaired: nat, now: Rows, batch: seq<Input>, whole: bool)
    returns (more: seq<Rows>, written: seq<seq<Input>>)
    requires Progress(states, batches, interval, responses, first, was, repaired, true) && Productive(states, |states| - 1)
    requires Round(was, now, interval, responses(|states| - 1))
    requires IsBatch(batch, was, now, interval, responses(|states| - 1))
    requires whole ==> WholeRound(was, now, interval, responses(|states| - 1))
    ensures |more| == |states| + 1 && more[|states|] == now && states != [] && more[|states| - 1] == was
    ensures Progress(more, written, interval, responses, first, now, repaired + |batch|, whole)
    ensures Filled(was, now) != {} ==> Productive(more, |states|)
  {
    hide Round, IsBatch, WholeRound;
    more, written := states + [now], batches + [batch];
    BatchesExtend(states, batches, now, batch, interval, responses);
    hide Written, Batches, Filled;
    assert Productive(more, |states| - 1);
  }

  /** How the repair loop ended. */
  datatype Outcome = Complete | Stuck | Paused | Interrupted

  /** Gaps remain, and the last response had nothing usable for the widest of them. */
  ghost predicate Unhelped(rows: Rows, interval: Interval, responses: nat -> seq<Fetched>, fetches: nat) {
    && GapsNow(rows, interval) != [] && fetches > 0
    && forall f :: f in responses(fetches - 1) ==> !Usable(Widest(GapsNow(rows, interval)).missing, f)
  }

  /** What holds at the loop head: the gap just asked for in vain, if any, is the widest one. */
  ghost predicate Standing(states: seq<Rows>, batches: seq<seq<Input>>, interval: Interval, responses: nat -> seq<Fetched>,
                           first: Rows, now: Rows, repaired: nat, fetches: nat, exhausted: set<int>) {
    && |states| == fetches + 1 && Progress(states, batches, interval, responses, first, now, repaired, true)
    && (exhausted == {} ==> Productive(states, fetches))
    && (exhausted != {} ==>
          && Unhelped(now, interval, responses, fetches) && exhausted == {Widest(GapsNow(now, interval)).start}
          && states[fetches - 1] == now)
  }

  lemma RepairStarts(rows: Rows, interval: Interval, responses: nat -> seq<Fetched>)
    ensures Standing([rows], [], interval, responses, rows, rows, 0, 0, {})
  {
    hide Progress, GapsNow, Unhelped;
    ProgressStarts(rows, interval, responses);
  }

  lemma NotExhausted(states: seq<Rows>, batches: seq<seq<Input>>, interval: Interval, responses: nat -> seq<Fetched>,
                     first: Rows, now: Rows, repaired: nat, fetches: nat, exhausted: set<int>)
    requires Standing(states, batches, interval, responses, first, now, repaired, fetches, exhausted)
    requires GapsNow(now, interval) != [] && Widest(GapsNow(now, interval)).start !in exhausted
    ensures exhausted == {}
  {
    hide Progress, GapsNow, Unhelped, Productive;
  }

  lemma RepairGoesOn(states: seq<Rows>, batches: seq<seq<Input>>, interval: Interval, responses: nat -> seq<Fetched>,
                     first: Rows, was: Rows, repaired: nat, fetches: nat, exhausted: set<int>, now: Rows, batch: seq<Input>,
                     whole: bool)
    returns (more: seq<Rows>, written: seq<seq<Input>>)
    requires exhausted == {} && Standing(states, batches, interval, responses, first, was, repaired, fetches, exhausted)
    requires Round(was, now, interval, responses(fetches)) && IsBatch(batch, was, now, interval, responses(fetches))
    requires whole ==> WholeRound(was, now, interval, responses(fetches))
    requires if batch != [] then Filled(was, now) != {} else now == was
    requires whole && batch == [] ==>
               forall f :: f in responses(fetches) ==> !Usable(Widest(GapsNow(was, interval)).missing, f)
    ensures |more| == fetches + 2 && Progress(more, written, interval, responses, first, now, repaired + |batch|, whole)
    ensures whole ==> Standing(more, written, interval, responses, first, now, repaired + |batch|, fetches + 1,
                               if batch == [] then exhausted + {Widest(GapsNow(was, interval)).start} else exhausted)
  {
    hide Progress, IsBatch, WholeRound, Filled, FilledFrom, GapsNow, Usable, Productive;
    more, written := ProgressNext(states, batches, interval, responses, first, was, repaired, now, batch, whole);
  }

  lemma RepairEnds(outcome: Outcome, states: seq<Rows>, batches: seq<seq<Input>>, interval: Interval,
                   responses: nat -> seq<Fetched>, first: Rows, now: Rows, repaired: nat, fetches: nat, exhausted: set<int>)
    requires outcome != Interrupted ==> Standing(states, batches, interval, responses, first, now, repaired, fetches, exhausted)
    requires outcome == Interrupted ==> |states| == fetches + 1
                                        && Progress(states, batches, interval, responses, first, now, repaired, false)
    requires outcome == Complete ==> GapsNow(now, interval) == []
    requires outcome == Stuck ==> GapsNow(now, interval) != [] && Widest(GapsNow(now, interval)).start in exhausted
    ensures |states| == fetches + 1
    ensures Progress(states, batches, interval, responses, first, now, repaired, outcome != Interrupted)
    ensures EndsAs(outcome, states, interval, responses)
  {
    hide GapsNow, Usable, History, Batches, Productive, WholeRounds;
  }

  lemma GapsExtend(times: seq<int>, index: nat, interval: Interval)
    requires 0 < index < |times|
    ensures GapsOf(times[..index + 1], interval)
         == GapsOf(times[..index], interval) + GapBetween(times[index - 1], times[index], interval)
  {
    assert times[..index + 1][..index] == times[..index];
  }

  method CollectSlots(previous: int, current: int, interval: Interval) returns (missing: seq<int>)
    ensures missing == Slots(previous, current, interval)
  {
    hide Slots;
    missing := [];
    ghost var latest := previous;
    var timestamp := previous + IntervalMs(interval);
    while timestamp < current
      invariant timestamp == latest + IntervalMs(interval)
      invariant missing + Slots(latest, current, interval) == Slots(previous, current, interval)
    {
      SlotsNext(missing, latest, current, interval);
      missing := missing + [timestamp];
      latest := timestamp;
      timestamp := timestamp + IntervalMs(interval);
    }
    SlotsNext(missing, latest, current, interval);
  }

  lemma SlotsNext(before: seq<int>, previous: int, current: int, interval: Interval)
    ensures var next := previous + IntervalMs(interval);
            before + Slots(previous, current, interval) ==
            if next < current then before + [next] + Slots(next, current, interval) else before
  {
    var next := previous + IntervalMs(interval);
    if next < current {
      assert Slots(previous, current, interval) == [next] + Slots(next, current, interval);
    }
  }

  // ---------------------------------------------------------------- a fetcher that serves every slot

  /** A gap opens after p: its next slot is missing. */
  ghost predicate Opens(times: set<int>, interval: Interval, p: int) {
    var t := p + IntervalMs(interval);
    p in times && (forall q :: q in times ==> q <= p || t < q) && exists c :: c in times && t < c
  }

  ghost function Openers(times: set<int>, interval: Interval): set<int> {
    set p | p in times && Opens(times, interval, p)
  }

  lemma OpenersExtend(times: set<int>, p: int, c: int, interval: Interval)
    requires p in times && p < c && forall x :: x in times ==> x <= p
    ensures Openers(times + {c}, interval) == Openers(times, interval) + (if p + IntervalMs(interval) < c then {p} else {})
    ensures p !in Openers(times, interval)
  {
    var more := times + {c};
    forall x
      ensures x in Openers(more, interval) <==>
              x in Openers(times, interval) || (x == p && p + IntervalMs(interval) < c)
    {
      assert p in more && c in more;
      if Opens(times, interval, x) {
        var later :| later in times && x + IntervalMs(interval) < later;
        assert later in more;
      }
    }
  }

  /** The detector finds one gap for every stored candle whose next slot is missing. */
  lemma {:induction false} GapsAreOpeners(times: seq<int>, interval: Interval)
    requires Ascending(times)
    ensures |GapsOf(times, interval)| == |Openers(Elements(times), interval)|
    decreases |times|
  {
    hide Openers;
    if |times| < 2 {
      FewOpenNothing(times, interval);
    } else {
      var p, c := times[|times| - 2], times[|times| - 1];
      AscendingSnoc(times);
      GapsAreOpeners(times[..|times| - 1], interval);
      OpenersExtend(Elements(times[..|times| - 1]), p, c, interval);
    }
  }

  lemma FewOpenNothing(times: seq<int>, interval: Interval)
    requires |times| < 2
    ensures Openers(Elements(times), interval) == {}
  {
    assert forall x, y :: x in times && y in times ==> x == y;
  }

  lemma AscendingSnoc(times: seq<int>)
    requires Ascending(times) && |times| >= 2
    ensures var shorter, p, c := times[..|times| - 1], times[|times| - 2], times[|times| - 1];
            && Ascending(shorter) && Elements(times) == Elements(shorter) + {c}
            && p in Elements(shorter) && p < c && forall x :: x in Elements(shorter) ==> x <= p
  {
    Snoc(times);
    var shorter := times[..|times| - 1];
    assert shorter[|times| - 2] == times[|times| - 2];
  }

  /** Two stored candles with none between them. */
  ghost predicate Adjacent(times: set<int>, p: int, c: int) {
    p in times && c in times && p < c && forall x :: x in times ==> x <= p || c <= x
  }

  /** The slots of a gap lie between two adjacent candles. */
  lemma {:induction false} GapHasBounds(times: seq<int>, interval: Interval, gap: Gap) returns (p: int, c: int)
    requires Ascending(times) && gap in GapsOf(times, interval)
    ensures Adjacent(Elements(times), p, c) && gap.missing == Slots(p, c, interval) != []
    decreases |times|
  {
    hide Slots, Ascending;
    var shorter := times[..|times| - 1];
    AscendingSnoc(times);
    if gap in GapsOf(shorter, interval) {
      p, c := GapHasBounds(shorter, interval, gap);
    } else {
      p, c := times[|times| - 2], times[|times| - 1];
    }
  }

  lemma SlotSet(p: int, c: int, interval: Interval, t: int)
    ensures t in Elements(Slots(p, c, interval)) <==> p < t < c && OnGrid(t - p, interval)
  {
    SlotsAre(p, c, interval, t);
  }

  /** Filling every slot between two adjacent candles closes the gap between them, and no other. */
  lemma ClosingRemovesOpener(times: set<int>, p: int, c: int, interval: Interval)
    requires Adjacent(times, p, c) && p + IntervalMs(interval) < c
    ensures var filled := Elements(Slots(p, c, interval));
            Openers(times + filled, interval) == Openers(times, interval) - {p} && p in Openers(times, interval)
  {
    hide OnGrid, Slots;
    var filled, step := Elements(Slots(p, c, interval)), IntervalMs(interval);
    var more := times + filled;
    assert p + step in filled by {
      SlotSet(p, c, interval, p + step);
      GridSteps(step, interval);
    }
    forall t | t in filled
      ensures p < t < c && (t + step in filled || c <= t + step)
    {
      SlotSet(p, c, interval, t);
      SlotSet(p, c, interval, t + step);
      GridSteps(t + step - p, interval);
    }
    forall x
      ensures x in Openers(more, interval) <==> x in Openers(times, interval) && x != p
    {
      OpensMore(times, filled, p, c, interval, x);
    }
    assert c in times && p + step < c;
  }

  lemma FilledDoNotOpen(times: set<int>, filled: set<int>, p: int, c: int, interval: Interval, x: int)
    requires Adjacent(times, p, c) && x in filled && p < x < c
    requires x + IntervalMs(interval) in filled || c <= x + IntervalMs(interval)
    ensures !Opens(times + filled, interval, x) && !Opens(times, interval, x)
  {
    assert c in times + filled;
    assert x + IntervalMs(interval) in filled ==> x + IntervalMs(interval) in times + filled;
  }

  lemma OpensMore(times: set<int>, filled: set<int>, p: int, c: int, interval: Interval, x: int)
    requires Adjacent(times, p, c) && p + IntervalMs(interval) in filled
    requires forall t :: t in filled ==> p < t < c && (t + IntervalMs(interval) in filled || c <= t + IntervalMs(interval))
    ensures Opens(times + filled, interval, x) <==> Opens(times, interval, x) && x != p
  {
    var more, step := times + filled, IntervalMs(interval);
    assert c in more && forall t :: t in times ==> t in more;
    if x in filled {
      FilledDoNotOpen(times, filled, p, c, interval, x);
    } else if Opens(more, interval, x) {
      var later :| later in more && x + step < later;
      assert later in times || (c in times && x + step < c);
    }
    if Opens(times, interval, x) && x != p {
      var later :| later in times && x + step < later;
      assert later in more;
      assert x < p ==> x + step < p;
    }
  }

  /** The response holds a valid candle for every slot asked for. */
  ghost predicate Serves(candles: seq<Fetched>, missing: seq<int>) {
    forall t :: t in missing ==> exists f :: f in candles && f.timestamp == t && Usable(missing, f)
  }

  /** Every round of a history wrote the whole of its response. */
  ghost predicate WholeRounds(states: seq<Rows>, interval: Interval, responses: nat -> seq<Fetched>) {
    forall i :: 0 <= i < |states| - 1 ==> WholeRound(states[i], states[i + 1], interval, responses(i))
  }

  ghost predicate WholeRound(was: Rows, now: Rows, interval: Interval, candles: seq<Fetched>) {
    GapsNow(was, interval) != [] && now == UpsertAll(was, RepairInputs(Widest(GapsNow(was, interval)).missing, candles))
  }

  /** Every response of a history serves the gap it was asked for. */
  ghost predicate Served(states: seq<Rows>, interval: Interval, responses: nat -> seq<Fetched>) {
    forall i :: 0 <= i < |states| - 1 && GapsNow(states[i], interval) != [] ==>
      Serves(responses(i), Widest(GapsNow(states[i], interval)).missing)
  }

  lemma ServedStamps(missing: seq<int>, candles: seq<Fetched>)
    requires Serves(candles, missing)
    ensures Stamps(RepairInputs(missing, candles)) == Elements(missing)
  {
    var inputs := RepairInputs(missing, candles);
    forall t
      ensures t in Stamps(inputs) <==> t in Elements(missing)
    {
      if t in missing {
        var f :| f in candles && f.timestamp == t && Usable(missing, f);
        assert RepairInput(f) in inputs;
      }
    }
  }

  /** A served round closes the gap asked for, and no other. */
  lemma ServedRoundClosesGap(was: Rows, now: Rows, interval: Interval, candles: seq<Fetched>)
    requires WholeRound(was, now, interval, candles) && Serves(candles, Widest(GapsNow(was, interval)).missing)
    ensures |GapsNow(now, interval)| + 1 == |GapsNow(was, interval)|
  {
    var gap := Widest(GapsNow(was, interval));
    hide Widest, UpsertAll, RepairInputs, Stamps, Serves, Slots, Openers, Elements;
    SortedIs(was.Keys);
    SortedIs(now.Keys);
    var p, c := GapHasBounds(Sorted(was.Keys), interval, gap);
    SlotsStart(p, c, interval);
    RepairInputsAccepted(gap.missing, candles);
    ReplacementsWrite(was, RepairInputs(gap.missing, candles));
    ServedStamps(gap.missing, candles);
    ClosingRemovesOpener(was.Keys, p, c, interval);
    GapsAreOpeners(Sorted(was.Keys), interval);
    GapsAreOpeners(Sorted(now.Keys), interval);
  }

  lemma SlotsStart(p: int, c: int, interval: Interval)
    ensures Slots(p, c, interval) != [] <==> p + IntervalMs(interval) < c
  {
  }

  lemma {:induction false} ServedClosesOneEach(states: seq<Rows>, interval: Interval, responses: nat -> seq<Fetched>, k: nat)
    requires k < |states| && WholeRounds(states, interval, responses) && Served(states, interval, responses)
    ensures |GapsNow(states[k], interval)| + k == |GapsNow(states[0], interval)|
    decreases k
  {
    hide GapsNow, Serves, UpsertAll, RepairInputs;
    if k > 0 {
      ServedClosesOneEach(states, interval, responses, k - 1);
      assert WholeRound(states[k - 1], states[k], interval, responses(k - 1));
      ServedRoundClosesGap(states[k - 1], states[k], interval, responses(k - 1));
    }
  }

  /** How a repair ended, in terms of its last states. */
  ghost predicate EndsAs(outcome: Outcome, states: seq<Rows>, interval: Interval, responses: nat -> seq<Fetched>)
    requires states != []
  {
    var n := |states| - 1;
    && (outcome == Complete ==> GapsNow(states[n], interval) == [])
    && (outcome == Stuck ==> Unhelped(states[n], interval, responses, n) && n > 0 && states[n] == states[n - 1])
  }

  /**
   * A hook that always permits and a fetcher that serves every slot it is asked for: the repair is
   * complete, stores every slot missing at the start, and fetches once for each gap found then.
   */
  lemma ServedRepairCompletes(outcome: Outcome, states: seq<Rows>, interval: Interval, responses: nat -> seq<Fetched>,
                              permits: nat -> bool, asked: nat)
    requires History(states, interval, responses) && EndsAs(outcome, states, interval, responses)
    requires Answered(permits, asked, outcome == Paused || outcome == Interrupted)
    requires outcome != Interrupted ==> WholeRounds(states, interval, responses)
    requires (forall n :: permits(n)) && Served(states, interval, responses)
    ensures outcome == Complete
    ensures forall t :: t in Missing(states[0].Keys, interval) ==> t in states[|states| - 1]
    ensures |states| - 1 == |GapsNow(states[0], interval)|
  {
    StartGapsClosedIff(states, interval, responses);
    var n := |states| - 1;
    hide History, GapsNow, Missing, Served, WholeRounds;
    ServedClosesOneEach(states, interval, responses, n);
    if outcome == Stuck {
      ServedClosesOneEach(states, interval, responses, n - 1);
      assert false;
    }
  }

  // ---------------------------------------------------------------- retention

  function Newest(rows: Rows): (t: int)
    requires rows.Keys != {}
    ensures t in rows && forall u :: u in rows ==> u <= t
  {
    SortedIs(rows.Keys);
    var times := Sorted(rows.Keys);
    assert forall u :: u in rows ==> u in Elements(times);
    assert times[|times| - 1] in Elements(times);
    times[|times| - 1]
  }

  /** new Date(x) drops the fraction towards zero. */
  function Truncated(x: real): int {
    if x >= 0.0 then x.Floor else -((-x).Floor)
  }

  function CutoffMs(reference: int, retentionDays: real): int {
    Truncated(reference as real - retentionDays * DAY_MS as real)
  }

  /** Without a clock the newest candle is the reference. */
  function AfterRetention(rows: Rows, retentionDays: real, now: Option<int>): Rows {
    if rows.Keys == {} then rows
    else
      var reference := match now case Some(t) => t case None => Newest(rows);
      map t | t in rows && CutoffMs(reference, retentionDays) < t :: rows[t]
  }

  /** The candles kept are those later than the reference less so many days, a fraction of a millisecond dropped towards 1970. */
  lemma RetentionKeeps(rows: Rows, retentionDays: real, now: Option<int>, t: int)
    requires rows.Keys != {}
    ensures var kept := AfterRetention(rows, retentionDays, now);
            var reference := match now case Some(n) => n case None => Newest(rows);
            var limit := reference as real - retentionDays * 86_400_000.0;
            && (t in kept <==> t in rows && if limit >= 0.0 then t as real > limit else t as real >= limit + 1.0)
            && (t in kept ==> kept[t] == rows[t])
  {
    hide Newest, CutoffMs;
    var reference := match now case Some(n) => n case None => Newest(rows);
    CutoffIs(reference, retentionDays, t);
  }

  lemma CutoffIs(reference: int, retentionDays: real, t: int)
    ensures var limit := reference as real - retentionDays * 86_400_000.0;
            CutoffMs(reference, retentionDays) < t <==> if limit >= 0.0 then t as real > limit else t as real >= limit + 1.0
  {
    hide Truncated;
    var before, limit := reference as real - retentionDays * DAY_MS as real, reference as real - retentionDays * 86_400_000.0;
    assert CutoffMs(reference, retentionDays) == Truncated(before);
    SameProduct(retentionDays, DAY_MS as real, 86_400_000.0);
    assert before == limit;
    CutoffBelowIff(before, t);
  }

  lemma SameProduct(x: real, a: real, b: real)
    requires a == b
    ensures x * a == x * b
  {
  }

  lemma CutoffBelowIff(x: real, t: int)
    ensures Truncated(x) < t <==> if x >= 0.0 then t as real > x else t as real >= x + 1.0
  {
    var n := if x >= 0.0 then x.Floor else (-x).Floor;
    assert n as real <= (if x >= 0.0 then x else -x) < n as real + 1.0;
  }

  lemma TruncatedBelowIff(n: int, e: real)
    requires e > 0.0
    ensures Truncated(n as real - e) < n <==> n > 0 || e >= 1.0
  {
    var x := n as real - e;
    if x >= 0.0 {
      assert x.Floor as real <= x;
    } else if n <= 0 && e < 1.0 {
      assert (-x).Floor == -n;
    }
  }

  lemma {:induction false} SubsetSmaller(a: set<int>, b: set<int>)
    requires a <= b
    ensures |a| <= |b|
  {
    assert b == a + (b - a);
  }

  /**
   * Without a clock, a positive retention keeps the newest candle exactly when that is later than
   * 1970 or the retention is at least a millisecond; then it is idempotent. It never opens a gap.
   */
  lemma RetentionIsStable(rows: Rows, retentionDays: real, interval: Interval)
    requires rows.Keys != {} && retentionDays > 0.0
    ensures var kept := AfterRetention(rows, retentionDays, None);
            && (Newest(rows) in kept <==> Newest(rows) > 0 || retentionDays * DAY_MS as real >= 1.0)
            && AfterRetention(kept, retentionDays, None) == kept
            && forall t :: t in Missing(kept.Keys, interval) ==> t in Missing(rows.Keys, interval)
  {
    hide Missing;
    var kept := AfterRetention(rows, retentionDays, None);
    assert retentionDays * DAY_MS as real > 0.0;
    TruncatedBelowIff(Newest(rows), retentionDays * DAY_MS as real);
    hide Truncated;
    var cutoff := CutoffMs(Newest(rows), retentionDays);
    if cutoff < Newest(rows) {
      assert Newest(rows) in kept;
      assert Newest(kept) == Newest(rows);
      assert AfterRetention(kept, retentionDays, None) == kept;
    } else {
      assert kept.Keys == {};
    }
    PruningOpensNoGap(rows.Keys, interval, cutoff, kept.Keys);
  }

  function RowsOf(table: Table, series: Series): Rows {
    if series in table then table[series] else map[]
  }

  /** The hook granted everything it was asked, up to a refusal at the last question when stopped. */
  ghost predicate Answered(permits: nat -> bool, asked: nat, stopped: bool) {
    && (forall k :: 0 <= k < asked && (stopped ==> k < asked - 1) ==> permits(k))
    && (stopped ==> asked > 0 && !permits(asked - 1))
  }

  /** Every series but this one. */
  function Others(table: Table, series: Series): Table { table - {series} }

  class OhlcvStore {
    var table: Table

    /** No other series was touched. */
    twostate predicate OnlyChanged(series: Series)
      reads this
    {
      Others(table, series) == old(Others(table, series))
    }

    constructor ()
      ensures table == map[]
    {
      table := map[];
    }

    method Upsert(series: Series, input: Input)
      modifies this
      ensures RowsOf(table, series) == Upserted(old(RowsOf(table, series)), input) && OnlyChanged(series)
    {
      if !Accepted(input) { return; }
      var rows := RowsOf(table, series);
      if input.timestamp in rows {
        rows := rows[input.timestamp := OnConflict(rows[input.timestamp], input)];
      } else {
        rows := rows[input.timestamp := NewCandle(input)];
      }
      table := table[series := rows];
    }

    method DetectGaps(series: Series) returns (gaps: seq<Gap>)
      ensures gaps == GapsNow(RowsOf(table, series), series.interval)
    {
      var times := Sorted(RowsOf(table, series).Keys);
      gaps := [];
      if |times| < 2 { return; }
      for index := 1 to |times|
        invariant gaps == GapsOf(times[..index], series.interval)
      {
        var previous, current := times[index - 1], times[index];
        GapsExtend(times, index, series.interval);
        if current - previous <= IntervalMs(series.interval) {
          continue;
        }
        var missing := CollectSlots(previous, current, series.interval);
        if |missing| == 0 {
          continue;
        }
        gaps := gaps + [Gap(missing[0], missing[|missing| - 1], missing, |missing|)];
      }
      assert times[..|times|] == times;
    }

    /** The inner loop: write what was asked for and is valid, while the caller permits. */
    method WriteUsable(target: Series, missing: seq<int>, candles: seq<Fetched>, permits: nat -> bool, asked0: nat)
      returns (written: nat, asked: nat, stopped: bool, ghost consumed: nat)
      requires Answered(permits, asked0, false)
      modifies this
      ensures Answered(permits, asked, stopped) && asked == asked0 + written + (if stopped then 1 else 0)
      ensures consumed <= |candles| && (!stopped ==> consumed == |candles|)
      ensures RowsOf(table, target) == UpsertAll(old(RowsOf(table, target)), InputsTo(missing, candles, consumed))
      ensures written == |InputsTo(missing, candles, consumed)|
      ensures OnlyChanged(target)
    {
      hide InputsTo, UpsertAll, RowsOf, Usable, Upserted, Answered;
      written, asked, stopped, consumed := 0, asked0, false, 0;
      ghost var rows := RowsOf(table, target);
      InputsEnds(missing, candles);
      NothingUpserted(rows);
      for i := 0 to |candles|
        invariant consumed == i && !stopped && OnlyChanged(target)
        invariant Answered(permits, asked, false) && asked == asked0 + written
        invariant RowsOf(table, target) == UpsertAll(rows, InputsTo(missing, candles, i))
        invariant written == |InputsTo(missing, candles, i)|
      {
        var candle := candles[i];
        RepairInputsExtend(rows, missing, candles, i);
        NextQuestion(permits, asked);
        if !Usable(missing, candle) {
          consumed := consumed + 1;
          continue;
        }
        asked := asked + 1;
        if !permits(asked - 1) {
          stopped := true;
          return;
        }
        Upsert(target, RepairInput(candle));
        written := written + 1;
        consumed := consumed + 1;
      }
    }

    /** One response to the widest gap is one round. */
    method WriteResponse(target: Series, gap: Gap, candles: seq<Fetched>, permits: nat -> bool, asked0: nat)
      returns (written: nat, asked: nat, stopped: bool, ghost batch: seq<Input>)
      requires var gaps := GapsNow(RowsOf(table, target), target.interval); gaps != [] && gap == Widest(gaps)
      requires Answered(permits, asked0, false)
      modifies this
      ensures OnlyChanged(target)
      ensures Answered(permits, asked, stopped)
      ensures written == |batch|
      ensures var was, now := old(RowsOf(table, target)), RowsOf(table, target);
              && IsBatch(batch, was, now, target.interval, candles) && Round(was, now, target.interval, candles)
              && MissingCount(now, target.interval) <= MissingCount(was, target.interval)
              && MissingCount(was, target.interval) <= MissingCount(now, target.interval) + written
              && (if written == 0 then now == was
                  else Filled(was, now) != {} && MissingCount(now, target.interval) < MissingCount(was, target.interval))
              && (!stopped ==> WholeRound(was, now, target.interval, candles))
      ensures !stopped && written == 0 ==> forall f :: f in candles ==> !Usable(gap.missing, f)
    {
      hide GapsNow, MissingCount, Missing, UpsertAll, RepairInputs, Answered;
      InputsEnds(gap.missing, candles);
      ghost var was, consumed := RowsOf(table, target), 0;
      written, asked, stopped, consumed := WriteUsable(target, gap.missing, candles, permits, asked0);
      ghost var now := RowsOf(table, target);
      batch := InputsTo(gap.missing, candles, consumed);
      ResponseFills(was, target.interval, gap, candles, consumed);
      StampsBounded(InputsTo(gap.missing, candles, consumed));
      assert Round(was, now, target.interval, candles);
      RoundLowersByFilled(was, now, target.interval, candles);
      NothingUsable(was, gap.missing, candles, consumed);
    }

    /**
     * The repair loop, for any responses and any answers of the caller's permission hook: a
     * history of rounds, one per fetch, in which every round but possibly the last fills a slot.
     */
    method RepairPasses(target: Series, responses: nat -> seq<Fetched>, permits: nat -> bool)
      returns (outcome: Outcome, initialGaps: nat, repaired: nat, fetches: nat, asked: nat,
               ghost states: seq<Rows>, ghost batches: seq<seq<Input>>)
      modifies this
      ensures OnlyChanged(target)
      ensures initialGaps == |GapsNow(old(RowsOf(table, target)), target.interval)|
      ensures |states| == fetches + 1
      ensures Progress(states, batches, target.interval, responses, old(RowsOf(table, target)), RowsOf(table, target), repaired,
                       outcome != Interrupted)
      ensures Answered(permits, asked, outcome == Paused || outcome == Interrupted)
      ensures EndsAs(outcome, states, target.interval, responses)
    {
      hide Others, RowsOf, MissingCount, GapsNow, Standing, Progress, IsBatch, Answered, WholeRound, Round, Filled, EndsAs;
      var gaps := DetectGaps(target);
      initialGaps, repaired, fetches, states, batches := |gaps|, 0, 0, [RowsOf(table, target)], [];
      var exhausted: set<int> := {};
      asked, outcome := 0, Complete;
      ghost var first, now := RowsOf(table, target), RowsOf(table, target);
      RepairStarts(first, target.interval, responses);
      NoQuestions(permits);
      while |gaps| > 0
        invariant outcome == Complete && OnlyChanged(target) && Answered(permits, asked, false)
        invariant now == RowsOf(table, target) && gaps == GapsNow(now, target.interval)
        invariant Standing(states, batches, target.interval, responses, first, now, repaired, fetches, exhausted)
        decreases MissingCount(now, target.interval), exhausted == {}
      {
        NextQuestion(permits, asked);
        asked := asked + 1;
        if !permits(asked - 1) {
          outcome := Paused;
          break;
        }
        var gap := Widest(gaps);
        if gap.start in exhausted {
          outcome := Stuck;
          break;
        }
        NotExhausted(states, batches, target.interval, responses, first, now, repaired, fetches, exhausted);
        var written, stopped;
        ghost var batch, was := [], now;
        written, asked, stopped, batch := WriteResponse(target, gap, responses(fetches), permits, asked);
        now := RowsOf(table, target);
        states, batches := RepairGoesOn(states, batches, target.interval, responses, first, was, repaired, fetches, exhausted,
                                        now, batch, !stopped);
        fetches := fetches + 1;
        repaired := repaired + written;
        if stopped {
          outcome := Interrupted;
          break;
        }
        if written == 0 {
          exhausted := exhausted + {gap.start};
        }
        gaps := DetectGaps(target);
      }
      RepairEnds(outcome, states, batches, target.interval, responses, first, now, repaired, fetches, exhausted);
    }

    method EnforceRetention(series: Series, retentionDays: real, now: Option<int>) returns (deleted: nat)
      modifies this
      ensures OnlyChanged(series)
      ensures RowsOf(table, series) == AfterRetention(old(RowsOf(table, series)), retentionDays, now)
      ensures deleted + |RowsOf(table, series)| == |old(RowsOf(table, series))|
    {
      var rows := RowsOf(table, series);
      if |rows.Keys| == 0 { return 0; }
      var reference := match now case Some(t) => t case None => Newest(rows);
      var cutoff := CutoffMs(reference, retentionDays);
      var kept := map t | t in rows && cutoff < t :: rows[t];
      table := table[series := kept];
      assert kept.Keys <= rows.Keys;
      SubsetSmaller(kept.Keys, rows.Keys);
      deleted := |rows.Keys| - |kept.Keys|;
    }

    /**
     * The exported entry point: repair, then prune unless the repair was cut short or the caller
     * objects. `gapsRepaired` counts the gaps found at the start; all their slots are stored at the
     * end of the repair exactly when no gap is left then, and always when every response serves the
     * slots asked for. `candlesRepaired` counts the writes.
     */
    method RepairGaps(target: Series, responses: nat -> seq<Fetched>, permits: nat -> bool, retentionDays: real)
      returns (gapsRepaired: nat, candlesRepaired: nat, ghost states: seq<Rows>, ghost batches: seq<seq<Input>>,
               ghost outcome: Outcome, ghost asked: nat)
      modifies this
      ensures OnlyChanged(target)
      ensures Answered(permits, asked, outcome == Paused || outcome == Interrupted)
      ensures History(states, target.interval, responses) && states[0] == old(RowsOf(table, target))
      ensures Productive(states, AllButLast(|states| - 1)) && EndsAs(outcome, states, target.interval, responses)
      ensures gapsRepaired == |GapsNow(states[0], target.interval)|
      ensures (forall n :: permits(n)) && Served(states, target.interval, responses) ==>
                && outcome == Complete && |states| - 1 == gapsRepaired
                && forall t :: t in Missing(states[0].Keys, target.interval) ==> t in states[gapsRepaired]
      ensures var last := states[|states| - 1];
              (forall t :: t in Missing(states[0].Keys, target.interval) ==> t in last) <==>
              GapsNow(last, target.interval) == []
      ensures Batches(states, batches, target.interval, responses) && candlesRepaired == Written(batches)
      ensures |Filled(states[0], states[|states| - 1])| <= candlesRepaired
      ensures |Filled(states[0], states[|states| - 1])| == candlesRepaired <==> forall b :: b in batches ==> NoRepeats(b)
      ensures RowsOf(table, target) ==
              if outcome != Interrupted && retentionDays != 0.0 && permits(asked) then
                AfterRetention(states[|states| - 1], retentionDays, None)
              else states[|states| - 1]
    {
      hide History, GapsNow, Missing, Productive, Answered, Batches, NoRepeats, Filled, Served, EndsAs;
      var ended, fetches, questions;
      ended, gapsRepaired, candlesRepaired, fetches, questions, states, batches := RepairPasses(target, responses, permits);
      outcome, asked := ended, questions;
      StartGapsClosedIff(states, target.interval, responses);
      BatchesLength(states, batches, target.interval, responses);
      WrittenCountsFilledIff(states, batches, target.interval, responses);
      if (forall n :: permits(n)) && Served(states, target.interval, responses) {
        ServedRepairCompletes(ended, states, target.interval, responses, permits, questions);
      }
      if ended != Interrupted && retentionDays != 0.0 && permits(questions) {
        var _ := EnforceRetention(target, retentionDays, None);
      }
    }
  }

  lemma BatchesLength(states: seq<Rows>, batches: seq<seq<Input>>, interval: Interval, responses: nat -> seq<Fetched>)
    requires Batches(states, batches, interval, responses)
    ensures |states| == |batches| + 1
  {
  }
}
