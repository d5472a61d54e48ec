/**
 * The suggestion accounting of the market chart diagnostics (src/services/market-chart-diagnostics.ts):
 * independent passes over one list of fallback events that must agree with one another.
 * Maps keep insertion order, so a Map is modelled as the sequence of its values.
 */
module Suggestions {
  import opened Common
  import opened StableSort
  import ChartLog

  datatype History = Daily | Intraday

  datatype Kind = ByDays | ByRange

  /** `spanMs` is to - from where the request has both bounds and they can be read. */
  datatype FallbackEvent = FallbackEvent(
    coinId: string, vsCurrency: string, interval: Option<string>, route: ChartLog.Route, providerFilled: bool, kind: Kind,
    spanMs: Option<int>, observedAt: Option<int>)

  const DAY_MS := 86_400_000
  const WINDOW_MS := 604_800_000
  const SUGGESTION_LIMIT := 20

  function HistoryOf(e: FallbackEvent): History {
    if e.interval == Some("1m") || e.interval == Some("hourly") then Intraday else Daily
  }

  function IntervalName(h: History): string { if h == Intraday then "1m" else "1d" }

  function CandidateKey(coinId: string, vsCurrency: string, h: History): string {
    coinId + ":" + vsCurrency + ":" + IntervalName(h)
  }

  function KeyOf(e: FallbackEvent): string { CandidateKey(e.coinId, e.vsCurrency, HistoryOf(e)) }

  /** Midnight UTC today, less the window. */
  function Cutoff(now: int): int { now / DAY_MS * DAY_MS - WINDOW_MS }

  /** The source-backed target keys and the time a report is made at. */
  datatype Window = Window(backed: set<string>, now: int)

  /** An unreadable time is stale. */
  predicate Stale(v: Window, e: FallbackEvent) { e.observedAt.None? || e.observedAt.value < Cutoff(v.now) }

  predicate Suppressed(v: Window, e: FallbackEvent) { !Stale(v, e) && KeyOf(e) in v.backed }

  predicate Eligible(v: Window, e: FallbackEvent) { !Stale(v, e) && KeyOf(e) !in v.backed }

  function Total(v: Window, events: seq<FallbackEvent>): nat { CountIf(events, e => Eligible(v, e)) }

  // ---------------------------------------------------------------- the suggestions

  datatype PerRoute = PerRoute(chartDays: nat, chartRange: nat, ohlcDays: nat, ohlcRange: nat) {
    function Sum(): nat { chartDays + chartRange + ohlcDays + ohlcRange }

    function At(r: ChartLog.Route): nat {
      match r
      case MarketChartDays => chartDays
      case MarketChartRange => chartRange
      case OhlcDays => ohlcDays
      case OhlcRange => ohlcRange
    }

    function Bumped(r: ChartLog.Route): PerRoute {
      match r
      case MarketChartDays => this.(chartDays := chartDays + 1)
      case MarketChartRange => this.(chartRange := chartRange + 1)
      case OhlcDays => this.(ohlcDays := ohlcDays + 1)
      case OhlcRange => this.(ohlcRange := ohlcRange + 1)
    }
  }

  datatype Spans = Spans(requests: nat, intraday: nat, singleDay: nat, multiDay: nat) {
    /** recordRangeSpan, for a span of whole seconds. */
    function Bumped(h: History, seconds: nat): Spans {
      if h == Intraday && seconds < 86_400 then this.(requests := requests + 1, intraday := intraday + 1)
      else if seconds <= 86_400 then this.(requests := requests + 1, singleDay := singleDay + 1)
      else this.(requests := requests + 1, multiDay := multiDay + 1)
    }
  }

  function SpanSeconds(e: FallbackEvent): Option<nat> {
    if e.kind == ByRange && e.spanMs.Some? then Some(if e.spanMs.value < 0 then 0 else e.spanMs.value / 1000) else None
  }

  datatype Suggestion = Suggestion(
    coinId: string, vsCurrency: string, history: History, total: nat, providerFilled: nat, empty: nat,
    filledRoutes: PerRoute, emptyRoutes: PerRoute, byDays: nat, byRange: nat, spans: Spans, latestObservedAt: Option<int>)

  function SuggestionKey(s: Suggestion): string { CandidateKey(s.coinId, s.vsCurrency, s.history) }

  function Opened(e: FallbackEvent): Suggestion {
    var none := PerRoute(0, 0, 0, 0);
    Suggestion(e.coinId, e.vsCurrency, HistoryOf(e), 0, 0, 0, none, none, 0, 0, Spans(0, 0, 0, 0), None)
  }

  function Bumped(s: Suggestion, e: FallbackEvent): Suggestion {
    s.(total := s.total + 1,
       providerFilled := if e.providerFilled then s.providerFilled + 1 else s.providerFilled,
       empty := if e.providerFilled then s.empty else s.empty + 1,
       filledRoutes := if e.providerFilled then s.filledRoutes.Bumped(e.route) else s.filledRoutes,
       emptyRoutes := if e.providerFilled then s.emptyRoutes else s.emptyRoutes.Bumped(e.route),
       byDays := if e.kind == ByDays then s.byDays + 1 else s.byDays,
       byRange := if e.kind == ByRange then s.byRange + 1 else s.byRange,
       spans := if SpanSeconds(e).Some? then s.spans.Bumped(HistoryOf(e), SpanSeconds(e).value) else s.spans,
       latestObservedAt := if s.latestObservedAt.None? || (e.observedAt.Some? && e.observedAt.value > s.latestObservedAt.value)
                           then e.observedAt else s.latestObservedAt)
  }

  /** Map.get: the position of the key among the values. */
  function Find(suggestions: seq<Suggestion>, key: string): (at: nat)
    ensures at <= |suggestions|
    ensures at < |suggestions| ==> SuggestionKey(suggestions[at]) == key
    ensures at == |suggestions| ==> forall i :: 0 <= i < |suggestions| ==> SuggestionKey(suggestions[i]) != key
  {
    if suggestions == [] then 0
    else if SuggestionKey(suggestions[0]) == key then 0
    else
      var at := Find(suggestions[1..], key);
      assert forall i :: 0 < i < |suggestions| ==> suggestions[i] == suggestions[1..][i - 1];
      1 + at
  }

  function Noted(suggestions: seq<Suggestion>, e: FallbackEvent): seq<Suggestion> {
    var at := Find(suggestions, KeyOf(e));
    if at < |suggestions| then suggestions[at := Bumped(suggestions[at], e)]
    else suggestions + [Bumped(Opened(e), e)]
  }

  /** The suggestions in order of first event. */
  function Tally(v: Window, events: seq<FallbackEvent>): seq<Suggestion> {
    if events == [] then []
    else
      var before, last := Tally(v, events[..|events| - 1]), events[|events| - 1];
      if Eligible(v, last) then Noted(before, last) else before
  }

  /** Total is the sum by source, by route and by request kind; the span buckets add up to the readable range requests. */
  predicate Balanced(s: Suggestion) {
    && s.total == s.providerFilled + s.empty == s.byDays + s.byRange
    && s.filledRoutes.Sum() == s.providerFilled && s.emptyRoutes.Sum() == s.empty
    && s.spans.intraday + s.spans.singleDay + s.spans.multiDay == s.spans.requests <= s.byRange
  }

  ghost predicate DistinctKeys(suggestions: seq<Suggestion>) {
    forall i, j :: 0 <= i < j < |suggestions| ==> SuggestionKey(suggestions[i]) != SuggestionKey(suggestions[j])
  }

  /** Eligible events of one target. */
  function Mine(v: Window, events: seq<FallbackEvent>, key: string): nat {
    CountIf(events, e => Eligible(v, e) && KeyOf(e) == key)
  }

  function EligibleKeys(v: Window, events: seq<FallbackEvent>): set<string> {
    set e | e in events && Eligible(v, e) :: KeyOf(e)
  }

  lemma BumpKeepsBalance(s: Suggestion, e: FallbackEvent)
    ensures SuggestionKey(Bumped(s, e)) == SuggestionKey(s)
    ensures Balanced(s) ==> Balanced(Bumped(s, e))
    ensures Bumped(s, e).total == s.total + 1 && Bumped(s, e).history == s.history
    ensures Balanced(Opened(e)) && SuggestionKey(Opened(e)) == KeyOf(e) && Opened(e).total == 0
  {
  }

  lemma NotedKeys(before: seq<Suggestion>, e: FallbackEvent)
    requires DistinctKeys(before)
    ensures var after := Noted(before, e);
            && DistinctKeys(after)
            && |after| == |before| + (if Find(before, KeyOf(e)) < |before| then 0 else 1)
            && (forall i :: 0 <= i < |before| ==> SuggestionKey(after[i]) == SuggestionKey(before[i]))
            && (|after| > |before| ==> SuggestionKey(after[|before|]) == KeyOf(e))
  {
    var at := Find(before, KeyOf(e));
    if at < |before| {
      BumpKeepsBalance(before[at], e);
    } else {
      BumpKeepsBalance(Opened(e), e);
    }
    hide CandidateKey, SuggestionKey, Bumped, Opened, KeyOf;
  }

  lemma {:induction false} TallyHasDistinctKeys(v: Window, events: seq<FallbackEvent>)
    ensures DistinctKeys(Tally(v, events))
  {
    if events != [] {
      TallyHasDistinctKeys(v, events[..|events| - 1]);
      if Eligible(v, events[|events| - 1]) {
        NotedKeys(Tally(v, events[..|events| - 1]), events[|events| - 1]);
      }
    }
  }

  lemma MineNext(v: Window, events: seq<FallbackEvent>, key: string)
    requires events != []
    ensures var last := events[|events| - 1];
            Mine(v, events, key) == Mine(v, events[..|events| - 1], key) + (if Eligible(v, last) && KeyOf(last) == key then 1 else 0)
  {
  }

  /** Every suggestion is balanced and counts exactly the eligible events of its target. */
  ghost predicate CountsItsEvents(v: Window, events: seq<FallbackEvent>, s: Suggestion) {
    Balanced(s) && s.total == Mine(v, events, SuggestionKey(s)) > 0
  }

  lemma {:induction false} TallyCounts(v: Window, events: seq<FallbackEvent>, i: nat)
    requires i < |Tally(v, events)|
    ensures CountsItsEvents(v, events, Tally(v, events)[i])
    decreases |events|
  {
    var shorter, last := events[..|events| - 1], events[|events| - 1];
    var before, after := Tally(v, shorter), Tally(v, events);
    MineNext(v, events, SuggestionKey(after[i]));
    TallyHasDistinctKeys(v, shorter);
    if !Eligible(v, last) {
      TallyCounts(v, shorter, i);
    } else {
      NotedKeys(before, last);
      NotedEntry(before, last, i);
      if i < |before| {
        TallyCounts(v, shorter, i);
      } else {
        NoneCounted(v, shorter, KeyOf(last));
      }
    }
  }

  lemma NotedEntry(before: seq<Suggestion>, e: FallbackEvent, i: nat)
    requires DistinctKeys(before) && i < |Noted(before, e)|
    ensures var s := Noted(before, e)[i];
            if i < |before| then
              SuggestionKey(s) == SuggestionKey(before[i])
              && s == if SuggestionKey(s) == KeyOf(e) then Bumped(before[i], e) else before[i]
            else s == Bumped(Opened(e), e) && SuggestionKey(s) == KeyOf(e)
    ensures i < |before| && Balanced(before[i]) ==> Balanced(Noted(before, e)[i])
    ensures i == |before| ==> Balanced(Noted(before, e)[i]) && Noted(before, e)[i].total == 1
  {
    var at := Find(before, KeyOf(e));
    if i < |before| { BumpKeepsBalance(before[i], e); }
    BumpKeepsBalance(Opened(e), e);
    hide CandidateKey, KeyOf, Opened, Balanced;
  }

  /** A key the tally does not hold has no eligible event. */
  lemma {:induction false} NoneCounted(v: Window, events: seq<FallbackEvent>, key: string)
    requires Find(Tally(v, events), key) == |Tally(v, events)|
    ensures Mine(v, events, key) == 0
  {
    if events != [] {
      var shorter, last := events[..|events| - 1], events[|events| - 1];
      TallyHasDistinctKeys(v, shorter);
      MineNext(v, events, key);
      if Eligible(v, last) { NotedKeys(Tally(v, shorter), last); }
      hide CandidateKey, SuggestionKey, Bumped, Opened, KeyOf;
      NoneCounted(v, shorter, key);
    }
  }

  // ---------------------------------------------------------------- each counter of a suggestion

  function FromSource(filled: bool): FallbackEvent -> bool { (e: FallbackEvent) => e.providerFilled == filled }

  function OfKind(kind: Kind): FallbackEvent -> bool { (e: FallbackEvent) => e.kind == kind }

  function OnRoute(filled: bool, r: ChartLog.Route): FallbackEvent -> bool {
    (e: FallbackEvent) => e.providerFilled == filled && e.route == r
  }

  /** Eligible events of one target that satisfy p. */
  function MineIf(v: Window, events: seq<FallbackEvent>, key: string, p: FallbackEvent -> bool): nat {
    if events == [] then 0
    else
      var last := events[|events| - 1];
      MineIf(v, events[..|events| - 1], key, p) + (if Eligible(v, last) && KeyOf(last) == key && p(last) then 1 else 0)
  }

  /** Every counter of the suggestion counts exactly its events of that source, kind and route. */
  ghost predicate BreaksDown(v: Window, events: seq<FallbackEvent>, s: Suggestion) {
    var key := SuggestionKey(s);
    && s.providerFilled == MineIf(v, events, key, FromSource(true))
    && s.empty == MineIf(v, events, key, FromSource(false))
    && s.byDays == MineIf(v, events, key, OfKind(ByDays))
    && s.byRange == MineIf(v, events, key, OfKind(ByRange))
    && (forall r :: s.filledRoutes.At(r) == MineIf(v, events, key, OnRoute(true, r)))
    && (forall r :: s.emptyRoutes.At(r) == MineIf(v, events, key, OnRoute(false, r)))
  }

  lemma {:induction false} MineIfAtMost(v: Window, events: seq<FallbackEvent>, key: string, p: FallbackEvent -> bool)
    ensures MineIf(v, events, key, p) <= Mine(v, events, key)
  {
    if events != [] {
      MineIfAtMost(v, events[..|events| - 1], key, p);
      MineNext(v, events, key);
    }
  }

  lemma BumpBreaksDown(v: Window, events: seq<FallbackEvent>, s: Suggestion)
    requires events != [] && Eligible(v, events[|events| - 1]) && KeyOf(events[|events| - 1]) == SuggestionKey(s)
    requires BreaksDown(v, events[..|events| - 1], s)
    ensures BreaksDown(v, events, Bumped(s, events[|events| - 1]))
  {
    hide Eligible, KeyOf, CandidateKey, SpanSeconds;
    var last := events[|events| - 1];
    var now := Bumped(s, last);
    assert SuggestionKey(now) == SuggestionKey(s);
    forall r
      ensures now.filledRoutes.At(r) == s.filledRoutes.At(r) + (if last.providerFilled && last.route == r then 1 else 0)
      ensures now.emptyRoutes.At(r) == s.emptyRoutes.At(r) + (if !last.providerFilled && last.route == r then 1 else 0)
    {
    }
    hide SuggestionKey;
  }

  lemma OthersBreakDown(v: Window, events: seq<FallbackEvent>, s: Suggestion)
    requires events != []
    requires !Eligible(v, events[|events| - 1]) || KeyOf(events[|events| - 1]) != SuggestionKey(s)
    requires BreaksDown(v, events[..|events| - 1], s)
    ensures BreaksDown(v, events, s)
  {
    hide Eligible, KeyOf, SuggestionKey;
  }

  lemma OpenedBreaksDown(v: Window, events: seq<FallbackEvent>, e: FallbackEvent)
    requires Mine(v, events, KeyOf(e)) == 0
    ensures BreaksDown(v, events, Opened(e))
  {
    BumpKeepsBalance(Opened(e), e);
    hide Mine, KeyOf, SuggestionKey, MineIf;
    forall p: FallbackEvent -> bool
      ensures MineIf(v, events, KeyOf(e), p) == 0
    {
      MineIfAtMost(v, events, KeyOf(e), p);
    }
  }

  lemma {:induction false} TallyBreaksDown(v: Window, events: seq<FallbackEvent>, i: nat)
    requires i < |Tally(v, events)|
    ensures BreaksDown(v, events, Tally(v, events)[i])
    decreases |events|
  {
    var shorter, last := events[..|events| - 1], events[|events| - 1];
    var before := Tally(v, shorter);
    TallyHasDistinctKeys(v, shorter);
    hide BreaksDown, KeyOf, SuggestionKey, Bumped, Opened;
    if !Eligible(v, last) {
      TallyBreaksDown(v, shorter, i);
      OthersBreakDown(v, events, before[i]);
    } else {
      NotedEntry(before, last, i);
      if i < |before| {
        TallyBreaksDown(v, shorter, i);
        if SuggestionKey(before[i]) == KeyOf(last) {
          BumpBreaksDown(v, events, before[i]);
        } else {
          OthersBreakDown(v, events, before[i]);
        }
      } else {
        NotedKeys(before, last);
        NoneCounted(v, shorter, KeyOf(last));
        OpenedBreaksDown(v, shorter, last);
        BumpKeepsBalance(Opened(last), last);
        BumpBreaksDown(v, events, Opened(last));
      }
    }
  }

  ghost function OnRoutes(v: Window, events: seq<FallbackEvent>, key: string, filled: bool): PerRoute {
    PerRoute(MineIf(v, events, key, OnRoute(filled, ChartLog.MarketChartDays)), MineIf(v, events, key, OnRoute(filled, ChartLog.MarketChartRange)),
             MineIf(v, events, key, OnRoute(filled, ChartLog.OhlcDays)), MineIf(v, events, key, OnRoute(filled, ChartLog.OhlcRange)))
  }

  /** Column by column, the routes of a suggestion count its events of that route and source. */
  lemma TallyCountsRoutes(v: Window, events: seq<FallbackEvent>, i: nat)
    requires i < |Tally(v, events)|
    ensures var s := Tally(v, events)[i]; var key := SuggestionKey(s);
            s.filledRoutes == OnRoutes(v, events, key, true) && s.emptyRoutes == OnRoutes(v, events, key, false)
  {
    TallyBreaksDown(v, events, i);
    hide Tally, SuggestionKey, MineIf, OnRoute;
    var s := Tally(v, events)[i];
    AllColumns(s.filledRoutes, OnRoutes(v, events, SuggestionKey(s), true));
    AllColumns(s.emptyRoutes, OnRoutes(v, events, SuggestionKey(s), false));
  }

  lemma AllColumns(p: PerRoute, q: PerRoute)
    requires p.At(ChartLog.MarketChartDays) == q.chartDays && p.At(ChartLog.MarketChartRange) == q.chartRange
    requires p.At(ChartLog.OhlcDays) == q.ohlcDays && p.At(ChartLog.OhlcRange) == q.ohlcRange
    ensures p == q
  {
  }

  // ---------------------------------------------------------------- spans and times

  datatype Bucket = AnySpan | IntradaySpan | SingleDaySpan | MultiDaySpan

  predicate ByMinute(e: FallbackEvent) { e.interval in {Some("1m"), Some("hourly")} }

  /** The range requests of a bucket, by milliseconds: a second past a whole day still counts as that day. */
  function InBucket(b: Bucket): FallbackEvent -> bool {
    (e: FallbackEvent) =>
      && e.kind == ByRange && e.spanMs.Some?
      && match b
         case AnySpan => true
         case IntradaySpan => ByMinute(e) && e.spanMs.value < 86_400_000
         case SingleDaySpan => e.spanMs.value < 86_401_000 && !(ByMinute(e) && e.spanMs.value < 86_400_000)
         case MultiDaySpan => e.spanMs.value >= 86_401_000
  }

  ghost predicate SpansBreakDown(v: Window, events: seq<FallbackEvent>, s: Suggestion) {
    var key := SuggestionKey(s);
    && s.spans.requests == MineIf(v, events, key, InBucket(AnySpan))
    && s.spans.intraday == MineIf(v, events, key, InBucket(IntradaySpan))
    && s.spans.singleDay == MineIf(v, events, key, InBucket(SingleDaySpan))
    && s.spans.multiDay == MineIf(v, events, key, InBucket(MultiDaySpan))
  }

  ghost predicate IsMine(v: Window, events: seq<FallbackEvent>, i: nat, key: string) {
    i < |events| && Eligible(v, events[i]) && KeyOf(events[i]) == key
  }

  /** No event is later, and one is as late. */
  ghost predicate IsLatest(v: Window, events: seq<FallbackEvent>, key: string, latest: int) {
    && (exists i: nat :: IsMine(v, events, i, key) && events[i].observedAt == Some(latest))
    && forall i: nat :: IsMine(v, events, i, key) ==> events[i].observedAt.Some? && events[i].observedAt.value <= latest
  }

  lemma BucketsOfOne(s: Spans, e: FallbackEvent)
    ensures var now := if SpanSeconds(e).Some? then s.Bumped(HistoryOf(e), SpanSeconds(e).value) else s;
            && now.requests == s.requests + (if InBucket(AnySpan)(e) then 1 else 0)
            && now.intraday == s.intraday + (if InBucket(IntradaySpan)(e) then 1 else 0)
            && now.singleDay == s.singleDay + (if InBucket(SingleDaySpan)(e) then 1 else 0)
            && now.multiDay == s.multiDay + (if InBucket(MultiDaySpan)(e) then 1 else 0)
  {
  }

  lemma BumpShows(s: Suggestion, e: FallbackEvent)
    ensures var now := Bumped(s, e);
            && now.spans == (if SpanSeconds(e).Some? then s.spans.Bumped(HistoryOf(e), SpanSeconds(e).value) else s.spans)
            && (s.latestObservedAt.None? ==> now.latestObservedAt == e.observedAt)
            && (s.latestObservedAt.Some? && e.observedAt.Some? ==>
                  now.latestObservedAt.Some? && now.latestObservedAt.value ==
                    if e.observedAt.value > s.latestObservedAt.value then e.observedAt.value else s.latestObservedAt.value)
  {
    hide SpanSeconds, HistoryOf;
  }

  lemma BumpSpans(v: Window, events: seq<FallbackEvent>, s: Suggestion)
    requires events != [] && Eligible(v, events[|events| - 1]) && KeyOf(events[|events| - 1]) == SuggestionKey(s)
    requires SpansBreakDown(v, events[..|events| - 1], s)
    ensures SpansBreakDown(v, events, Bumped(s, events[|events| - 1]))
  {
    var last := events[|events| - 1];
    BumpKeepsBalance(s, last);
    BumpShows(s, last);
    BucketsOfOne(s.spans, last);
    hide Eligible, KeyOf, SuggestionKey, SpanSeconds, Bumped, InBucket, Balanced, Opened, Spans.Bumped;
  }

  lemma OthersSpans(v: Window, events: seq<FallbackEvent>, s: Suggestion)
    requires events != []
    requires !Eligible(v, events[|events| - 1]) || KeyOf(events[|events| - 1]) != SuggestionKey(s)
    requires SpansBreakDown(v, events[..|events| - 1], s)
    ensures SpansBreakDown(v, events, s)
  {
    hide Eligible, KeyOf, SuggestionKey, InBucket;
  }

  lemma OpenedSpans(v: Window, events: seq<FallbackEvent>, e: FallbackEvent)
    requires Mine(v, events, KeyOf(e)) == 0
    ensures SpansBreakDown(v, events, Opened(e))
  {
    BumpKeepsBalance(Opened(e), e);
    hide Mine, KeyOf, SuggestionKey, MineIf, InBucket;
    forall p: FallbackEvent -> bool
      ensures MineIf(v, events, KeyOf(e), p) == 0
    {
      MineIfAtMost(v, events, KeyOf(e), p);
    }
  }

  /** The range requests of a suggestion, and each of its span buckets, count exactly its events of that span. */
  lemma {:induction false} TallyBreaksDownSpans(v: Window, events: seq<FallbackEvent>, i: nat)
    requires i < |Tally(v, events)|
    ensures SpansBreakDown(v, events, Tally(v, events)[i])
    decreases |events|
  {
    var shorter, last := events[..|events| - 1], events[|events| - 1];
    var before := Tally(v, shorter);
    TallyHasDistinctKeys(v, shorter);
    hide SpansBreakDown, KeyOf, SuggestionKey, Bumped, Opened;
    if !Eligible(v, last) {
      TallyBreaksDownSpans(v, shorter, i);
      OthersSpans(v, events, before[i]);
    } else {
      NotedEntry(before, last, i);
      if i < |before| {
        TallyBreaksDownSpans(v, shorter, i);
        if SuggestionKey(before[i]) == KeyOf(last) {
          BumpSpans(v, events, before[i]);
        } else {
          OthersSpans(v, events, before[i]);
        }
      } else {
        NotedKeys(before, last);
        NoneCounted(v, shorter, KeyOf(last));
        OpenedSpans(v, shorter, last);
        BumpKeepsBalance(Opened(last), last);
        BumpSpans(v, events, Opened(last));
      }
    }
  }

  lemma {:induction false} MineIsNone(v: Window, events: seq<FallbackEvent>, key: string, i: nat)
    requires Mine(v, events, key) == 0
    ensures !IsMine(v, events, i, key)
  {
    if events != [] {
      MineNext(v, events, key);
      hide Mine, Eligible, KeyOf;
      if i + 1 < |events| { MineIsNone(v, events[..|events| - 1], key, i); }
    }
  }

  lemma LatestNext(v: Window, events: seq<FallbackEvent>, key: string, latest: int)
    requires events != [] && IsLatest(v, events[..|events| - 1], key, latest)
    ensures var last := events[|events| - 1];
            IsLatest(v, events, key,
              if IsMine(v, events, |events| - 1, key) && last.observedAt.value > latest then last.observedAt.value else latest)
  {
    hide KeyOf, Cutoff;
    var n := |events| - 1;
    assert forall i: nat :: i < n ==> events[i] == events[..n][i];
    var i: nat :| IsMine(v, events[..n], i, key) && events[..n][i].observedAt == Some(latest);
    assert IsMine(v, events, i, key);
    if IsMine(v, events, n, key) { assert events[n].observedAt.Some?; }
    forall j: nat | IsMine(v, events, j, key) && j < n
      ensures events[j].observedAt.Some? && events[j].observedAt.value <= latest
    {
      assert IsMine(v, events[..n], j, key);
    }
  }

  lemma LatestFirst(v: Window, events: seq<FallbackEvent>, key: string)
    requires events != [] && Mine(v, events[..|events| - 1], key) == 0 && IsMine(v, events, |events| - 1, key)
    ensures events[|events| - 1].observedAt.Some? && IsLatest(v, events, key, events[|events| - 1].observedAt.value)
  {
    hide KeyOf, Cutoff, Mine;
    var n := |events| - 1;
    forall j: nat | IsMine(v, events, j, key)
      ensures j == n
    {
      MineIsNone(v, events[..n], key, j);
    }
  }

  /** A suggestion shows the time of its latest event. */
  lemma {:induction false} TallyShowsLatest(v: Window, events: seq<FallbackEvent>, i: nat)
    requires i < |Tally(v, events)|
    ensures var s := Tally(v, events)[i];
            s.latestObservedAt.Some? && IsLatest(v, events, SuggestionKey(s), s.latestObservedAt.value)
    decreases |events|
  {
    var n := |events| - 1;
    var shorter, last := events[..n], events[n];
    var before, s := Tally(v, shorter), Tally(v, events)[i];
    TallyHasDistinctKeys(v, shorter);
    if !Eligible(v, last) {
      TallyShowsLatest(v, shorter, i);
      hide Tally, SuggestionKey;
      LatestNext(v, events, SuggestionKey(s), s.latestObservedAt.value);
    } else {
      NotedEntry(before, last, i);
      NotedKeys(before, last);
      hide KeyOf, Cutoff, SuggestionKey, Opened, Balanced, Noted, IsLatest;
      if i < |before| {
        BumpShows(before[i], last);
        TallyShowsLatest(v, shorter, i);
        hide Tally, Bumped;
        LatestNext(v, events, SuggestionKey(s), before[i].latestObservedAt.value);
      } else {
        OpenedShows(last);
        BumpShows(Opened(last), last);
        NoneCounted(v, shorter, KeyOf(last));
        hide Tally, Bumped;
        LatestFirst(v, events, KeyOf(last));
      }
    }
  }

  lemma OpenedShows(e: FallbackEvent)
    ensures Opened(e).latestObservedAt.None?
  {
  }

  // ---------------------------------------------------------------- which events count

  /** The name of a target, as text. */
  lemma KeyIs(e: FallbackEvent)
    ensures KeyOf(e) == e.coinId + ":" + e.vsCurrency + (if ByMinute(e) then ":1m" else ":1d")
  {
  }

  /** Names without a colon are told apart: one key is one coin, one currency and one interval. */
  lemma KeyTellsTarget(c: string, w: string, h: History, d: string, x: string, g: History)
    requires CandidateKey(c, w, h) == CandidateKey(d, x, g)
    requires ':' !in c && ':' !in d && ':' !in w && ':' !in x
    ensures c == d && w == x && h == g
  {
    KeyDeterminesHistory(c, w, h, d, x, g);
    var (a, b) := (w + ":" + IntervalName(h), x + ":" + IntervalName(g));
    assert CandidateKey(c, w, h) == c + ":" + a && CandidateKey(d, x, g) == d + ":" + b;
    hide CandidateKey, IntervalName;
    FirstColon(c, a, d, b);
    assert a == w + ":" + IntervalName(h) && b == x + ":" + IntervalName(g);
    FirstColon(w, IntervalName(h), x, IntervalName(g));
  }

  lemma FirstColon(a: string, rest: string, b: string, more: string)
    requires a + ":" + rest == b + ":" + more && ':' !in a && ':' !in b
    ensures a == b && rest == more
  {
    var s, t := a + ":" + rest, b + ":" + more;
    assert s[|a|] == ':' && t[|b|] == ':';
    assert (forall i :: 0 <= i < |a| ==> s[i] == a[i] != ':') && (forall i :: 0 <= i < |b| ==> t[i] == b[i] != ':');
    assert a == s[..|a|] == t[..|b|] == b;
    assert rest == s[|a| + 1..] == t[|b| + 1..] == more;
  }

  /** On day d, an event counts if it can be dated to day d - 7 or later, for the suggestions unless its target has a source. */
  lemma StatusIs(v: Window, e: FallbackEvent, d: int)
    requires d * 86_400_000 <= v.now < (d + 1) * 86_400_000
    ensures Stale(v, e) <==> !(e.observedAt.Some? && e.observedAt.value >= (d - 7) * 86_400_000)
    ensures Suppressed(v, e) <==> !Stale(v, e) && KeyOf(e) in v.backed
    ensures Eligible(v, e) <==> !Stale(v, e) && KeyOf(e) !in v.backed
  {
    assert v.now / 86_400_000 == d;
    hide KeyOf;
  }

  // ---------------------------------------------------------------- unique targets

  function KeySet(suggestions: seq<Suggestion>): set<string> {
    set s | s in suggestions :: SuggestionKey(s)
  }

  lemma {:induction false} DistinctKeySet(suggestions: seq<Suggestion>)
    requires DistinctKeys(suggestions)
    ensures |KeySet(suggestions)| == |suggestions|
  {
    hide SuggestionKey;
    if suggestions != [] {
      var shorter, last := suggestions[..|suggestions| - 1], suggestions[|suggestions| - 1];
      DistinctKeySet(shorter);
      assert suggestions == shorter + [last];
      assert KeySet(suggestions) == KeySet(shorter) + {SuggestionKey(last)};
      assert SuggestionKey(last) !in KeySet(shorter);
    }
  }

  lemma {:induction false} MinePositive(v: Window, events: seq<FallbackEvent>, key: string)
    ensures Mine(v, events, key) > 0 <==> key in EligibleKeys(v, events)
  {
    if events != [] {
      var shorter, last := events[..|events| - 1], events[|events| - 1];
      MinePositive(v, shorter, key);
      MineNext(v, events, key);
      hide Mine, Eligible, KeyOf;
      assert events == shorter + [last];
    }
  }

  /** The tally has one suggestion for each key that some eligible event has. */
  lemma TallyHoldsEligibleKeys(v: Window, events: seq<FallbackEvent>)
    ensures KeySet(Tally(v, events)) == EligibleKeys(v, events)
    ensures |Tally(v, events)| == |EligibleKeys(v, events)|
  {
    TallyHasDistinctKeys(v, events);
    DistinctKeySet(Tally(v, events));
    forall key
      ensures key in KeySet(Tally(v, events)) <==> key in EligibleKeys(v, events)
    {
      hide SuggestionKey, EligibleKeys, Tally, Mine;
      MinePositive(v, events, key);
      var at := Find(Tally(v, events), key);
      if at < |Tally(v, events)| {
        TallyCounts(v, events, at);
        assert Tally(v, events)[at] in Tally(v, events);
      } else {
        NoneCounted(v, events, key);
      }
    }
  }

  function SumTotals(suggestions: seq<Suggestion>): nat {
    if suggestions == [] then 0
    else SumTotals(suggestions[..|suggestions| - 1]) + suggestions[|suggestions| - 1].total
  }

  lemma {:induction false} SumUpdate(suggestions: seq<Suggestion>, at: nat, s: Suggestion)
    requires at < |suggestions|
    ensures SumTotals(suggestions[at := s]) == SumTotals(suggestions) + s.total - suggestions[at].total
  {
    var last := |suggestions| - 1;
    if at == last {
      assert suggestions[at := s][..last] == suggestions[..last];
    } else {
      assert suggestions[at := s][..last] == suggestions[..last][at := s];
      SumUpdate(suggestions[..last], at, s);
    }
  }

  /** Every eligible event is counted in exactly one suggestion. */
  lemma {:induction false} TotalsAddUp(v: Window, events: seq<FallbackEvent>)
    ensures SumTotals(Tally(v, events)) == Total(v, events)
  {
    if events != [] {
      hide SuggestionKey, KeyOf, Bumped, Opened, Eligible;
      var shorter, last := events[..|events| - 1], events[|events| - 1];
      TotalsAddUp(v, shorter);
      var before, at := Tally(v, shorter), Find(Tally(v, shorter), KeyOf(last));
      if at < |before| {
        BumpKeepsBalance(before[at], last);
        SumUpdate(before, at, Bumped(before[at], last));
      } else {
        BumpKeepsBalance(Opened(last), last);
        var added := Bumped(Opened(last), last);
        assert (before + [added])[..|before|] == before;
      }
    }
  }

  // ---------------------------------------------------------------- what is returned

  function SortKey(rank: string -> real, s: Suggestion): seq<real> {
    [-(s.total as real), -(s.providerFilled as real), -(s.empty as real),
     if s.latestObservedAt.Some? then -(s.latestObservedAt.value as real) else 0.0,
     rank(s.coinId), rank(s.vsCurrency), rank(IntervalName(s.history))]
  }

  function SuggestionOrder(rank: string -> real): (Suggestion, Suggestion) -> bool {
    (s, t) => LexLeq(SortKey(rank, s), SortKey(rank, t))
  }

  lemma SuggestionOrderIsPreorder(rank: string -> real)
    ensures TotalPreorder(SuggestionOrder(rank))
  {
    hide SortKey, LexLeq;
    forall s, t
      ensures SuggestionOrder(rank)(s, t) || SuggestionOrder(rank)(t, s)
    {
      LexTotal(SortKey(rank, s), SortKey(rank, t));
    }
    forall s, t, u | SuggestionOrder(rank)(s, t) && SuggestionOrder(rank)(t, u)
      ensures SuggestionOrder(rank)(s, u)
    {
      LexTransitive(SortKey(rank, s), SortKey(rank, t), SortKey(rank, u));
    }
  }

  /** More events first, then more of them filled, then more empty, then the later ones, then by name. */
  lemma SuggestionOrderIs(rank: string -> real, s: Suggestion, t: Suggestion)
    requires s.latestObservedAt.Some? && t.latestObservedAt.Some?
    ensures SuggestionOrder(rank)(s, t) <==>
            if s.total != t.total then s.total > t.total
            else if s.providerFilled != t.providerFilled then s.providerFilled > t.providerFilled
            else if s.empty != t.empty then s.empty > t.empty
            else if s.latestObservedAt != t.latestObservedAt then s.latestObservedAt.value > t.latestObservedAt.value
            else if rank(s.coinId) != rank(t.coinId) then rank(s.coinId) < rank(t.coinId)
            else if rank(s.vsCurrency) != rank(t.vsCurrency) then rank(s.vsCurrency) < rank(t.vsCurrency)
            else rank(if s.history == Intraday then "1m" else "1d") <= rank(if t.history == Intraday then "1m" else "1d")
  {
    var a, b := SortKey(rank, s), SortKey(rank, t);
    LexSeven(a, b);
    hide LexLeq;
  }

  lemma LexSeven(a: seq<real>, b: seq<real>)
    requires |a| == |b| == 7
    ensures LexLeq(a, b) <==>
            if a[0] != b[0] then a[0] < b[0] else if a[1] != b[1] then a[1] < b[1] else if a[2] != b[2] then a[2] < b[2]
            else if a[3] != b[3] then a[3] < b[3] else if a[4] != b[4] then a[4] < b[4]
            else if a[5] != b[5] then a[5] < b[5] else a[6] <= b[6]
  {
    hide LexLeq;
    LexFrom(a, b, 7);
    LexFrom(a, b, 6);
    LexFrom(a, b, 5);
    LexFrom(a, b, 4);
    LexFrom(a, b, 3);
    LexFrom(a, b, 2);
    LexFrom(a, b, 1);
    LexFrom(a, b, 0);
    assert a[0..] == a && b[0..] == b;
  }

  function Sliced(s: seq<Suggestion>): seq<Suggestion> { if |s| <= SUGGESTION_LIMIT then s else s[..SUGGESTION_LIMIT] }

  function Returned(v: Window, events: seq<FallbackEvent>, rank: string -> real): seq<Suggestion> {
    Sliced(SortBy(Tally(v, events), SuggestionOrder(rank)))
  }

  /** min(20, unique eligible targets) suggestions come back, each counting its target's events, none preceded by one left out. */
  lemma ReturnedAre(v: Window, events: seq<FallbackEvent>, rank: string -> real)
    ensures var returned, unique := Returned(v, events, rank), |EligibleKeys(v, events)|;
            && |returned| == (if unique < 20 then unique else 20)
            && (forall s :: s in returned ==> s in Tally(v, events) && CountsItsEvents(v, events, s))
            && Ordered(returned, SuggestionOrder(rank))
            && forall r, s :: r in returned && s in Tally(v, events) && s !in returned ==> SuggestionOrder(rank)(r, s)
  {
    var tally, leq := Tally(v, events), SuggestionOrder(rank);
    TallyHoldsEligibleKeys(v, events);
    SuggestionOrderIsPreorder(rank);
    SortByIs(tally, leq);
    var sorted, returned := SortBy(tally, leq), Returned(v, events, rank);
    hide Tally, EligibleKeys, CountsItsEvents, SuggestionOrder, SortBy;
    forall s | s in returned
      ensures s in tally && CountsItsEvents(v, events, s)
    {
      assert s in sorted;
      SortByMembers(tally, leq, s);
      var i :| 0 <= i < |tally| && tally[i] == s;
      TallyCounts(v, events, i);
    }
    forall r, s | r in returned && s in tally && s !in returned
      ensures leq(r, s)
    {
      SortByMembers(tally, leq, s);
      PrefixPrecedes(sorted, leq, r, s);
    }
  }

  lemma PrefixPrecedes(sorted: seq<Suggestion>, leq: (Suggestion, Suggestion) -> bool, r: Suggestion, s: Suggestion)
    requires Ordered(sorted, leq) && r in Sliced(sorted) && s in sorted && s !in Sliced(sorted)
    ensures leq(r, s)
  {
    var i :| 0 <= i < |Sliced(sorted)| && Sliced(sorted)[i] == r;
    var j :| 0 <= j < |sorted| && sorted[j] == s;
    assert forall k :: 0 <= k < |Sliced(sorted)| ==> Sliced(sorted)[k] == sorted[k] && sorted[k] in Sliced(sorted);
  }

  // ---------------------------------------------------------------- overflow

  function OfHistory(h: History): Suggestion -> bool { (s: Suggestion) => s.history == h }

  /** Per history, what is returned never exceeds what is eligible, so omissions are plain differences. */
  lemma NoClampPerHistory(v: Window, events: seq<FallbackEvent>, rank: string -> real, h: History)
    ensures CountIf(Returned(v, events, rank), OfHistory(h)) <= CountIf(Tally(v, events), OfHistory(h))
  {
    var sorted := SortBy(Tally(v, events), SuggestionOrder(rank));
    SortByCount(Tally(v, events), SuggestionOrder(rank), OfHistory(h));
    hide SortBy, Tally, SuggestionOrder;
    PrefixCount(sorted, |Sliced(sorted)|, OfHistory(h));
    assert Sliced(sorted) == sorted[..|Sliced(sorted)|];
  }

  lemma {:induction false} HistoriesAddUp(s: seq<Suggestion>)
    ensures CountIf(s, OfHistory(Daily)) + CountIf(s, OfHistory(Intraday)) == |s|
  {
    if s != [] { HistoriesAddUp(s[..|s| - 1]); }
  }

  /** The eligible targets of the overflow pass, in order of first event, with the history last set. */
  function EligibleTargets(v: Window, events: seq<FallbackEvent>): seq<(string, History)> {
    if events == [] then []
    else
      var before, last := EligibleTargets(v, events[..|events| - 1]), events[|events| - 1];
      if Eligible(v, last) then PutTarget(before, KeyOf(last), HistoryOf(last)) else before
  }

  /** Map.set */
  function PutTarget(targets: seq<(string, History)>, key: string, h: History): seq<(string, History)> {
    if targets == [] then [(key, h)]
    else if targets[0].0 == key then [(key, h)] + targets[1..]
    else [targets[0]] + PutTarget(targets[1..], key, h)
  }

  function AsTargets(suggestions: seq<Suggestion>): seq<(string, History)> {
    seq(|suggestions|, i requires 0 <= i < |suggestions| => (SuggestionKey(suggestions[i]), suggestions[i].history))
  }

  /** A key ends in its interval, so it determines the history. */
  lemma KeyDeterminesHistory(c: string, w: string, h: History, d: string, x: string, g: History)
    requires CandidateKey(c, w, h) == CandidateKey(d, x, g)
    ensures h == g
  {
    var s, t := CandidateKey(c, w, h), CandidateKey(d, x, g);
    assert s[|s| - 1] == (if h == Intraday then 'm' else 'd');
    assert t[|t| - 1] == (if g == Intraday then 'm' else 'd');
  }

  lemma AsTargetsCons(s: Suggestion, rest: seq<Suggestion>)
    ensures AsTargets([s] + rest) == [(SuggestionKey(s), s.history)] + AsTargets(rest)
  {
    hide SuggestionKey;
  }

  lemma PutTargetCons(t: (string, History), ts: seq<(string, History)>, key: string, h: History)
    ensures PutTarget([t] + ts, key, h) == if t.0 == key then [(key, h)] + ts else [t] + PutTarget(ts, key, h)
  {
    assert ([t] + ts)[1..] == ts;
  }

  lemma NotedFirst(s: Suggestion, rest: seq<Suggestion>, e: FallbackEvent)
    requires SuggestionKey(s) == KeyOf(e)
    ensures Noted([s] + rest, e) == [Bumped(s, e)] + rest
    ensures SuggestionKey(Bumped(s, e)) == SuggestionKey(s) && Bumped(s, e).history == s.history == HistoryOf(e)
  {
    BumpKeepsBalance(s, e);
    KeyDeterminesHistory(s.coinId, s.vsCurrency, s.history, e.coinId, e.vsCurrency, HistoryOf(e));
    hide Bumped;
  }

  lemma {:induction false} PutMatchesNoted(suggestions: seq<Suggestion>, e: FallbackEvent)
    ensures PutTarget(AsTargets(suggestions), KeyOf(e), HistoryOf(e)) == AsTargets(Noted(suggestions, e))
  {
    if suggestions == [] {
      PutIntoEmpty(e);
    } else {
      hide PutTarget, AsTargets, Noted, SuggestionKey, KeyOf, HistoryOf, Bumped;
      var s, rest := suggestions[0], suggestions[1..];
      assert suggestions == [s] + rest;
      AsTargetsCons(s, rest);
      PutTargetCons((SuggestionKey(s), s.history), AsTargets(rest), KeyOf(e), HistoryOf(e));
      if SuggestionKey(s) == KeyOf(e) {
        NotedFirst(s, rest, e);
        AsTargetsCons(Bumped(s, e), rest);
      } else {
        PutMatchesNoted(rest, e);
        NotedTail(suggestions, e);
        AsTargetsCons(s, Noted(rest, e));
      }
    }
  }

  lemma PutIntoEmpty(e: FallbackEvent)
    ensures PutTarget(AsTargets([]), KeyOf(e), HistoryOf(e)) == AsTargets(Noted([], e))
  {
    BumpKeepsBalance(Opened(e), e);
    OpenedHistory(e);
    hide SuggestionKey, KeyOf, HistoryOf, Bumped, Opened;
    assert Noted([], e) == [Bumped(Opened(e), e)];
  }

  lemma OpenedHistory(e: FallbackEvent)
    ensures Bumped(Opened(e), e).history == HistoryOf(e)
  {
  }

  lemma NotedTail(suggestions: seq<Suggestion>, e: FallbackEvent)
    requires suggestions != [] && SuggestionKey(suggestions[0]) != KeyOf(e)
    ensures Noted(suggestions, e) == [suggestions[0]] + Noted(suggestions[1..], e)
  {
    hide SuggestionKey, KeyOf, Bumped, Opened;
    assert suggestions == [suggestions[0]] + suggestions[1..];
  }

  /** The overflow pass and the suggestion pass hold the same targets. */
  lemma {:induction false} PassesHoldSameTargets(v: Window, events: seq<FallbackEvent>)
    ensures EligibleTargets(v, events) == AsTargets(Tally(v, events))
  {
    if events != [] {
      hide SuggestionKey, KeyOf, Noted, PutTarget, Eligible, HistoryOf;
      PassesHoldSameTargets(v, events[..|events| - 1]);
      PutMatchesNoted(Tally(v, events[..|events| - 1]), events[|events| - 1]);
    }
  }

  function TargetOf(h: History): ((string, History)) -> bool { (t: (string, History)) => t.1 == h }

  lemma {:induction false} TargetsCount(suggestions: seq<Suggestion>, h: History)
    ensures CountIf(AsTargets(suggestions), TargetOf(h)) == CountIf(suggestions, OfHistory(h))
  {
    hide SuggestionKey;
    if suggestions != [] {
      var shorter := suggestions[..|suggestions| - 1];
      TargetsCount(shorter, h);
      assert AsTargets(suggestions)[..|suggestions| - 1] == AsTargets(shorter);
    }
  }

  // ---------------------------------------------------------------- the passes

  /** buildResponseSourceTargetSuggestions: its loop, sort and slice. */
  method BuildSuggestions(v: Window, events: seq<FallbackEvent>, rank: string -> real) returns (returned: seq<Suggestion>)
    ensures returned == Returned(v, events, rank)
  {
    var suggestions: seq<Suggestion> := [];
    var n := 0;
    assert events[..0] == [];
    while n < |events|
      invariant 0 <= n <= |events|
      invariant suggestions == Tally(v, events[..n])
    {
      assert events[..n + 1][..n] == events[..n];
      hide Eligible, Stale, KeyOf, Noted;
      if Eligible(v, events[n]) {
        suggestions := Noted(suggestions, events[n]);
      }
      n := n + 1;
    }
    assert events[..n] == events;
    returned := Sliced(SortBy(suggestions, SuggestionOrder(rank)));
  }

  datatype Summary = Summary(
    recentTotal: nat, staleIgnored: nat, insideWindow: int, suppressed: nat, eligible: nat, unique: nat, returned: nat)

  function IsStale(v: Window): FallbackEvent -> bool { e => Stale(v, e) }

  function IsSuppressed(v: Window): FallbackEvent -> bool { e => Suppressed(v, e) }

  function IsEligible(v: Window): FallbackEvent -> bool { e => Eligible(v, e) }

  method BuildSummary(v: Window, events: seq<FallbackEvent>, returned: nat) returns (s: Summary)
    ensures s == Summary(|events|, CountIf(events, IsStale(v)), |events| - CountIf(events, IsStale(v)),
                         CountIf(events, IsSuppressed(v)), CountIf(events, IsEligible(v)), |EligibleKeys(v, events)|, returned)
    ensures s.staleIgnored + s.suppressed + s.eligible == s.recentTotal
    ensures s.suppressed + s.eligible == s.insideWindow
    ensures s.unique <= s.eligible && (s.eligible > 0 <==> s.unique > 0)
  {
    var stale, suppressed, eligible := 0, 0, 0;
    var unique: set<string> := {};
    var n := 0;
    assert events[..0] == [];
    while n < |events|
      invariant 0 <= n <= |events|
      invariant Tallied(v, events, n, stale, suppressed, eligible, unique)
    {
      hide Tallied, KeyOf, Cutoff;
      var event := events[n];
      NextStatus(v, events, n, stale, suppressed, eligible, unique);
      if event.observedAt.None? || event.observedAt.value < Cutoff(v.now) {
        stale := stale + 1;
      } else if KeyOf(event) in v.backed {
        suppressed := suppressed + 1;
      } else {
        eligible := eligible + 1;
        unique := unique + {KeyOf(event)};
      }
      n := n + 1;
    }
    assert events[..n] == events;
    StatusesAddUp(v, events);
    UniqueBound(v, events);
    s := Summary(|events|, stale, |events| - stale, suppressed, eligible, |unique|, returned);
  }

  const EXCLUSION_LIMIT := 5

  function Limited(events: seq<FallbackEvent>): seq<FallbackEvent> {
    if |events| <= EXCLUSION_LIMIT then events else events[..EXCLUSION_LIMIT]
  }

  function Where(events: seq<FallbackEvent>, p: FallbackEvent -> bool): seq<FallbackEvent> {
    if events == [] then []
    else Where(events[..|events| - 1], p) + (if p(events[|events| - 1]) then [events[|events| - 1]] else [])
  }

  lemma {:induction false} WhereCounts(events: seq<FallbackEvent>, p: FallbackEvent -> bool)
    ensures |Where(events, p)| == CountIf(events, p)
  {
    if events != [] { WhereCounts(events[..|events| - 1], p); }
  }

  /** The exclusion samples: sorted and cut to five, from exactly the events the summary counts as stale or suppressed. */
  method BuildExclusions(v: Window, events: seq<FallbackEvent>, order: (FallbackEvent, FallbackEvent) -> bool)
    returns (stale: seq<FallbackEvent>, sourceBacked: seq<FallbackEvent>)
    ensures stale == Limited(SortBy(Where(events, IsStale(v)), order))
    ensures sourceBacked == Limited(SortBy(Where(events, IsSuppressed(v)), order))
  {
    stale, sourceBacked := [], [];
    var n := 0;
    assert events[..0] == [];
    while n < |events|
      invariant 0 <= n <= |events|
      invariant stale == Where(events[..n], IsStale(v)) && sourceBacked == Where(events[..n], IsSuppressed(v))
    {
      hide KeyOf, Cutoff;
      assert events[..n + 1][..n] == events[..n];
      var event := events[n];
      if event.observedAt.None? || event.observedAt.value < Cutoff(v.now) {
        stale := stale + [event];
      } else if KeyOf(event) in v.backed {
        sourceBacked := sourceBacked + [event];
      }
      n := n + 1;
    }
    assert events[..n] == events;
    stale, sourceBacked := Limited(SortBy(stale, order)), Limited(SortBy(sourceBacked, order));
  }

  /** An excluded sample is an event the summary counts, and there are five or as many as it counts. */
  lemma ExclusionsMatchSummary(
    events: seq<FallbackEvent>, order: (FallbackEvent, FallbackEvent) -> bool, p: FallbackEvent -> bool)
    requires TotalPreorder(order)
    ensures var samples, count := Limited(SortBy(Where(events, p), order)), CountIf(events, p);
            && |samples| == (if count < 5 then count else 5)
            && samples <= SortBy(Where(events, p), order)
            && forall e :: e in samples ==> e in events && p(e)
  {
    WhereCounts(events, p);
    SortByIs(Where(events, p), order);
    forall e | e in Limited(SortBy(Where(events, p), order))
      ensures e in events && p(e)
    {
      SortByMembers(Where(events, p), order, e);
      WhereMembers(events, p, e);
    }
  }

  lemma {:induction false} WhereMembers(events: seq<FallbackEvent>, p: FallbackEvent -> bool, e: FallbackEvent)
    ensures e in Where(events, p) <==> e in events && p(e)
  {
    if events != [] { WhereMembers(events[..|events| - 1], p, e); }
  }

  lemma NextCount(events: seq<FallbackEvent>, n: nat, p: FallbackEvent -> bool)
    requires n < |events|
    ensures CountIf(events[..n + 1], p) == CountIf(events[..n], p) + (if p(events[n]) then 1 else 0)
  {
    assert events[..n + 1][..n] == events[..n];
  }

  /** The counters after the first n events. */
  ghost predicate Tallied(v: Window, events: seq<FallbackEvent>, n: nat, stale: nat, suppressed: nat, eligible: nat,
                          unique: set<string>)
    requires n <= |events|
  {
    && stale == CountIf(events[..n], IsStale(v)) && suppressed == CountIf(events[..n], IsSuppressed(v))
    && eligible == CountIf(events[..n], IsEligible(v)) && unique == EligibleKeys(v, events[..n])
  }

  lemma NextStatus(v: Window, events: seq<FallbackEvent>, n: nat, stale: nat, suppressed: nat, eligible: nat,
                   unique: set<string>)
    requires n < |events| && Tallied(v, events, n, stale, suppressed, eligible, unique)
    ensures var event := events[n];
            if event.observedAt.None? || event.observedAt.value < Cutoff(v.now) then
              Tallied(v, events, n + 1, stale + 1, suppressed, eligible, unique)
            else if KeyOf(event) in v.backed then Tallied(v, events, n + 1, stale, suppressed + 1, eligible, unique)
            else Tallied(v, events, n + 1, stale, suppressed, eligible + 1, unique + {KeyOf(event)})
  {
    hide CountIf, KeyOf, Cutoff, EligibleKeys;
    NextCount(events, n, IsStale(v));
    NextCount(events, n, IsSuppressed(v));
    NextCount(events, n, IsEligible(v));
    NextKeys(v, events, n);
  }

  /** Every event is stale, suppressed or eligible, and only one of them. */
  lemma {:induction false} StatusesAddUp(v: Window, events: seq<FallbackEvent>)
    ensures CountIf(events, IsStale(v)) + CountIf(events, IsSuppressed(v)) + CountIf(events, IsEligible(v)) == |events|
  {
    if events != [] {
      hide KeyOf, Cutoff;
      StatusesAddUp(v, events[..|events| - 1]);
    }
  }

  lemma {:induction false} UniqueBound(v: Window, events: seq<FallbackEvent>)
    ensures |EligibleKeys(v, events)| <= CountIf(events, IsEligible(v))
    ensures CountIf(events, IsEligible(v)) > 0 <==> |EligibleKeys(v, events)| > 0
  {
    if events != [] {
      var shorter, last := events[..|events| - 1], events[|events| - 1];
      UniqueBound(v, shorter);
      hide KeyOf, Stale;
      NextKeys(v, events, |shorter|);
      assert events[..|events|] == events;
      hide EligibleKeys;
      if Eligible(v, last) { Grown(EligibleKeys(v, shorter), KeyOf(last)); }
    }
  }

  lemma Grown(s: set<string>, x: string)
    ensures |s| <= |s + {x}| <= |s| + 1 && |s + {x}| > 0
  {
    assert x in s + {x};
    if x in s { assert s + {x} == s; }
  }

  lemma NextKeys(v: Window, events: seq<FallbackEvent>, n: nat)
    requires n < |events|
    ensures EligibleKeys(v, events[..n + 1]) ==
            EligibleKeys(v, events[..n]) + (if Eligible(v, events[n]) then {KeyOf(events[n])} else {})
  {
    hide Eligible, KeyOf;
    assert events[..n + 1] == events[..n] + [events[n]];
  }

  datatype Overflow = Overflow(
    eligible: nat, returned: nat, omitted: nat, dailyEligible: nat, dailyReturned: nat, dailyOmitted: nat,
    intradayEligible: nat, intradayReturned: nat, intradayOmitted: nat)

  function AtLeastZero(x: int): nat { if x < 0 then 0 else x }

  method CountTargets(targets: seq<(string, History)>) returns (daily: nat, intraday: nat)
    ensures daily == CountIf(targets, TargetOf(Daily)) && intraday == CountIf(targets, TargetOf(Intraday))
  {
    daily, intraday := 0, 0;
    var n := 0;
    assert targets[..0] == [];
    while n < |targets|
      invariant 0 <= n <= |targets|
      invariant daily == CountIf(targets[..n], TargetOf(Daily)) && intraday == CountIf(targets[..n], TargetOf(Intraday))
    {
      assert targets[..n + 1][..n] == targets[..n];
      if targets[n].1 == Daily { daily := daily + 1; } else { intraday := intraday + 1; }
      n := n + 1;
    }
    assert targets[..n] == targets;
  }

  method CountSuggestions(suggestions: seq<Suggestion>) returns (daily: nat, intraday: nat)
    ensures daily == CountIf(suggestions, OfHistory(Daily)) && intraday == CountIf(suggestions, OfHistory(Intraday))
  {
    daily, intraday := 0, 0;
    var n := 0;
    assert suggestions[..0] == [];
    while n < |suggestions|
      invariant 0 <= n <= |suggestions|
      invariant daily == CountIf(suggestions[..n], OfHistory(Daily))
      invariant intraday == CountIf(suggestions[..n], OfHistory(Intraday))
    {
      assert suggestions[..n + 1][..n] == suggestions[..n];
      if suggestions[n].history == Daily { daily := daily + 1; } else { intraday := intraday + 1; }
      n := n + 1;
    }
    assert suggestions[..n] == suggestions;
  }

  method CollectTargets(v: Window, events: seq<FallbackEvent>) returns (targets: seq<(string, History)>)
    ensures targets == EligibleTargets(v, events)
  {
    targets := [];
    var n := 0;
    assert events[..0] == [];
    while n < |events|
      invariant 0 <= n <= |events|
      invariant targets == EligibleTargets(v, events[..n])
    {
      assert events[..n + 1][..n] == events[..n];
      hide Eligible, KeyOf, PutTarget;
      if Eligible(v, events[n]) {
        targets := PutTarget(targets, KeyOf(events[n]), HistoryOf(events[n]));
      }
      n := n + 1;
    }
    assert events[..n] == events;
  }

  /** The overflow pass: every omission is the plain difference, and the histories add up to the whole. */
  method BuildOverflow(v: Window, events: seq<FallbackEvent>, rank: string -> real) returns (o: Overflow)
    ensures o.eligible == |EligibleKeys(v, events)| && o.returned == |Returned(v, events, rank)|
    ensures o.omitted == o.eligible - o.returned
    ensures o.dailyOmitted == o.dailyEligible - o.dailyReturned
    ensures o.intradayOmitted == o.intradayEligible - o.intradayReturned
    ensures o.dailyEligible + o.intradayEligible == o.eligible && o.dailyReturned + o.intradayReturned == o.returned
    ensures o.dailyOmitted + o.intradayOmitted == o.omitted
  {
    var suggestions := BuildSuggestions(v, events, rank);
    var targets := CollectTargets(v, events);
    var dailyEligible, intradayEligible := CountTargets(targets);
    var dailyReturned, intradayReturned := CountSuggestions(suggestions);
    OverflowAgrees(v, events, rank);
    hide EligibleKeys, EligibleTargets, Returned, CountIf, TargetOf, OfHistory;
    var omitted: int := |targets| - |suggestions|;
    var dailyOmitted: int := dailyEligible as int - dailyReturned as int;
    var intradayOmitted: int := intradayEligible as int - intradayReturned as int;
    o := Overflow(|targets|, |suggestions|, AtLeastZero(omitted), dailyEligible, dailyReturned, AtLeastZero(dailyOmitted),
                  intradayEligible, intradayReturned, AtLeastZero(intradayOmitted));
  }

  lemma OverflowAgrees(v: Window, events: seq<FallbackEvent>, rank: string -> real)
    ensures var targets, returned := EligibleTargets(v, events), Returned(v, events, rank);
            && |targets| == |EligibleKeys(v, events)|
            && CountIf(targets, TargetOf(Daily)) + CountIf(targets, TargetOf(Intraday)) == |targets|
            && CountIf(returned, OfHistory(Daily)) + CountIf(returned, OfHistory(Intraday)) == |returned|
            && CountIf(returned, OfHistory(Daily)) <= CountIf(targets, TargetOf(Daily))
            && CountIf(returned, OfHistory(Intraday)) <= CountIf(targets, TargetOf(Intraday))
  {
    var tally := Tally(v, events);
    PassesHoldSameTargets(v, events);
    TallyHoldsEligibleKeys(v, events);
    TargetsCount(tally, Daily);
    TargetsCount(tally, Intraday);
    HistoriesAddUp(tally);
    HistoriesAddUp(Returned(v, events, rank));
    NoClampPerHistory(v, events, rank, Daily);
    NoClampPerHistory(v, events, rank, Intraday);
    hide Tally, Returned, EligibleKeys, EligibleTargets, CountIf, TargetOf, OfHistory, SuggestionKey;
  }

  // ---------------------------------------------------------------- the alert

  datatype Alert = Clear | ActionNeeded | WatchSuppressed | WatchStale

  function AlertOf(s: Summary): Alert {
    if s.recentTotal == 0 then Clear
    else if s.returned > 0 || s.eligible > 0 then ActionNeeded
    else if s.suppressed > 0 then WatchSuppressed
    else WatchStale
  }

  /** The suggestions, the summary and the alert of one report. */
  method BuildReport(v: Window, events: seq<FallbackEvent>, rank: string -> real)
    returns (suggestions: seq<Suggestion>, summary: Summary, alert: Alert)
    ensures suggestions == Returned(v, events, rank) && summary.returned == |suggestions|
    ensures summary.returned == if summary.unique < 20 then summary.unique else 20
    ensures summary.eligible == SumTotals(Tally(v, events))
    ensures alert == ActionNeeded <==> summary.eligible > 0
    ensures alert == Clear <==> events == []
    ensures alert == WatchSuppressed <==> summary.eligible == 0 && summary.suppressed > 0
    ensures alert == WatchStale <==> events != [] && summary.staleIgnored == |events|
  {
    suggestions := BuildSuggestions(v, events, rank);
    summary := BuildSummary(v, events, |suggestions|);
    alert := AlertOf(summary);
    ReturnedAre(v, events, rank);
    TotalsAddUp(v, events);
    EligibleIsTotal(v, events);
  }

  lemma {:induction false} EligibleIsTotal(v: Window, events: seq<FallbackEvent>)
    ensures CountIf(events, IsEligible(v)) == Total(v, events)
  {
    if events != [] { EligibleIsTotal(v, events[..|events| - 1]); }
  }
}
