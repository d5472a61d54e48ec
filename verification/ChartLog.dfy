/**
 * The chart response diagnostics (src/services/chart-response-source-diagnostics.ts): counters and
 * a ring of recent events kept in memory, and the same two kept in database tables that are written
 * outside any transaction. Every record call brings its own clock reading, row id and database fault.
 */
module ChartLog {
  import opened Common
  import opened Text

  datatype Route = MarketChartDays | MarketChartRange | OhlcDays | OhlcRange

  datatype Source = SourceBacked | Canonical | ProviderFilled | Empty

  datatype Request = Days(days: string) | Range(from: int, to: int)

  datatype Input = Input(coinId: string, vsCurrency: string, interval: Option<string>, request: Request)

  datatype Event = Event(route: Route, source: Source, input: Input, observedAt: int)

  /** A counter row of the database. */
  datatype Counter = Counter(count: nat, firstSeenAt: int, lastSeenAt: int)

  type Cell = (Route, Source)

  /** Which of the three statements fails, if any; the ones after it are skipped. */
  datatype Fault = NoFault | CountFails | InsertFails | PruneFails

  datatype Call = Call(route: Route, source: Source, input: Option<Input>, clock: int, id: string, fault: Fault)

  const RECENT_EVENT_LIMIT := 50

  datatype State = State(
    counts: map<Cell, nat>, ring: seq<Event>, lastObservedAt: int,
    counters: map<Cell, Counter>, rows: map<string, Event>)

  function Started(): State { State(map[], [], 0, map[], map[]) }

  /** A cell that was never counted reads as zero. */
  function Counted(counts: map<Cell, nat>, cell: Cell): nat { if cell in counts then counts[cell] else 0 }

  function Persisted(counters: map<Cell, Counter>, cell: Cell): nat {
    if cell in counters then counters[cell].count else 0
  }

  // ---------------------------------------------------------------- ORDER BY observed_at DESC, id DESC

  predicate After(rows: map<string, Event>, i: string, j: string)
    requires i in rows && j in rows
  {
    rows[i].observedAt > rows[j].observedAt || (rows[i].observedAt == rows[j].observedAt && Below(j, i))
  }

  predicate IsNewest(rows: map<string, Event>, id: string) {
    id in rows && forall j :: j in rows && j != id ==> After(rows, id, j)
  }

  lemma {:induction false} NewestExists(rows: map<string, Event>, ids: set<string>)
    requires ids != {} && ids <= rows.Keys
    ensures exists id :: id in ids && forall j :: j in ids && j != id ==> After(rows, id, j)
    decreases ids
  {
    var x := Member(ids);
    var rest := ids - {x};
    if rest == {} {
      assert ids == {x};
    } else {
      NewestExists(rows, rest);
      var y :| y in rest && forall j :: j in rest && j != y ==> After(rows, y, j);
      BelowIsStrict(x, y);
      if After(rows, y, x) {
        assert forall j :: j in ids && j != y ==> After(rows, y, j);
      } else {
        forall j | j in ids && j != x
          ensures After(rows, x, j)
        {
          if j != y {
            assert After(rows, y, j);
            if Below(j, y) && Below(y, x) { BelowIsTransitive(j, y, x); }
          }
        }
      }
    }
  }

  lemma NewestIsUnique(rows: map<string, Event>)
    requires rows != map[]
    ensures exists id :: IsNewest(rows, id)
    ensures forall i, j :: IsNewest(rows, i) && IsNewest(rows, j) ==> i == j
  {
    assert rows.Keys == {} ==> rows == map[];
    NewestExists(rows, rows.Keys);
    var id :| id in rows.Keys && forall j :: j in rows.Keys && j != id ==> After(rows, id, j);
    assert IsNewest(rows, id);
    forall i, j | IsNewest(rows, i) && IsNewest(rows, j)
      ensures i == j
    {
      BelowIsStrict(i, j);
    }
  }

  function Newest(rows: map<string, Event>): (id: string)
    requires rows != map[]
    ensures IsNewest(rows, id)
  {
    NewestIsUnique(rows);
    var id :| IsNewest(rows, id);
    id
  }

  /** The ids of the n newest rows, newest first. */
  function Top(rows: map<string, Event>, n: nat): seq<string> {
    if n == 0 || rows == map[] then [] else [Newest(rows)] + Top(rows - {Newest(rows)}, n - 1)
  }

  lemma {:induction false} TopAreRows(rows: map<string, Event>, n: nat)
    ensures forall id :: id in Top(rows, n) ==> id in rows
  {
    if n > 0 && rows != map[] { TopAreRows(rows - {Newest(rows)}, n - 1); }
  }

  /** What readRecentEvents returns. */
  function View(rows: map<string, Event>): seq<Event> {
    TopAreRows(rows, RECENT_EVENT_LIMIT);
    var ids := Top(rows, RECENT_EVENT_LIMIT);
    seq(|ids|, i requires 0 <= i < |ids| => rows[ids[i]])
  }

  /** The DELETE that keeps the newest rows. */
  function Pruned(rows: map<string, Event>): map<string, Event> {
    map id | id in rows && id in Top(rows, RECENT_EVENT_LIMIT) :: rows[id]
  }

  // ---------------------------------------------------------------- one record call

  predicate Recent(source: Source) { source == ProviderFilled || source == Empty }

  function ObservedAt(s: State, r: Call): int {
    if r.clock > s.lastObservedAt + 1 then r.clock else s.lastObservedAt + 1
  }

  function EventOf(s: State, r: Call): Option<Event> {
    if r.input.Some? && Recent(r.source) then Some(Event(r.route, r.source, r.input.value, ObservedAt(s, r))) else None
  }

  function Upserted(counters: map<Cell, Counter>, cell: Cell, now: int): map<Cell, Counter> {
    if cell in counters then
      counters[cell := counters[cell].(count := counters[cell].count + 1, lastSeenAt := now)]
    else counters[cell := Counter(1, now, now)]
  }

  function FirstOf<T>(s: seq<T>, n: nat): seq<T> { if |s| <= n then s else s[..n] }

  predicate EventPersisted(s: State, r: Call) {
    EventOf(s, r).Some? && r.fault != CountFails && r.fault != InsertFails && r.id !in s.rows
  }

  function Step(s: State, r: Call): State {
    var cell, event := (r.route, r.source), EventOf(s, r);
    var inserted := if EventPersisted(s, r) then s.rows[r.id := event.value] else s.rows;
    State(
      s.counts[cell := Counted(s.counts, cell) + 1],
      if event.Some? then FirstOf([event.value] + s.ring, RECENT_EVENT_LIMIT) else s.ring,
      ObservedAt(s, r),
      if r.fault == CountFails then s.counters else Upserted(s.counters, cell, ObservedAt(s, r)),
      if EventPersisted(s, r) && r.fault != PruneFails then Pruned(inserted) else inserted)
  }

  function Run(records: seq<Call>): State {
    if records == [] then Started() else Step(Run(records[..|records| - 1]), records[|records| - 1])
  }

  // ---------------------------------------------------------------- the histories the state summarizes

  /** Every event recorded, newest first. */
  function Recorded(records: seq<Call>): seq<Event> {
    if records == [] then []
    else
      var event := EventOf(Run(records[..|records| - 1]), records[|records| - 1]);
      (if event.Some? then [event.value] else []) + Recorded(records[..|records| - 1])
  }

  /** Every row that reached the table, newest first, whether or not it was pruned since. */
  function Written(records: seq<Call>): seq<(string, Event)> {
    if records == [] then []
    else
      var before, last := Run(records[..|records| - 1]), records[|records| - 1];
      (if EventPersisted(before, last) then [(last.id, EventOf(before, last).value)] else [])
      + Written(records[..|records| - 1])
  }

  function CallCount(records: seq<Call>, cell: Cell): nat {
    if records == [] then 0
    else
      var last := records[|records| - 1];
      CallCount(records[..|records| - 1], cell) + (if (last.route, last.source) == cell then 1 else 0)
  }

  function FailedCounts(records: seq<Call>, cell: Cell): nat {
    if records == [] then 0
    else
      var last := records[|records| - 1];
      FailedCounts(records[..|records| - 1], cell)
      + (if (last.route, last.source) == cell && last.fault == CountFails then 1 else 0)
  }

  /** Memory counts every call; the table misses exactly the calls whose counter statement failed. */
  lemma {:induction false} CountersAgree(records: seq<Call>, cell: Cell)
    ensures Counted(Run(records).counts, cell) == CallCount(records, cell)
    ensures Persisted(Run(records).counters, cell) + FailedCounts(records, cell) == CallCount(records, cell)
  {
    if records != [] {
      hide EventOf, ObservedAt, Pruned;
      CountersAgree(records[..|records| - 1], cell);
    }
  }

  /** The clock the events carry is strictly increasing even if the real clock stalls or goes back. */
  predicate Descending(events: seq<Event>, bound: int) {
    events == [] || (events[0].observedAt <= bound && Descending(events[1..], events[0].observedAt - 1))
  }

  lemma {:induction false} DescendingBelow(events: seq<Event>, bound: int, higher: int)
    requires Descending(events, bound) && bound <= higher
    ensures Descending(events, higher)
  {
  }

  lemma {:induction false} TimesDescend(records: seq<Call>)
    ensures Descending(Recorded(records), Run(records).lastObservedAt)
  {
    if records != [] {
      hide Pruned;
      var shorter, last := records[..|records| - 1], records[|records| - 1];
      TimesDescend(shorter);
      var before := Run(shorter);
      DescendingBelow(Recorded(shorter), before.lastObservedAt, ObservedAt(before, last) - 1);
      DescendingBelow(Recorded(shorter), before.lastObservedAt, ObservedAt(before, last));
      if EventOf(before, last).Some? {
        assert Recorded(records)[1..] == Recorded(shorter);
      } else {
        assert Recorded(records) == Recorded(shorter);
      }
    }
  }

  /** The n-th of the times a call may carry: its place in the run, or the clock of a call plus the number of calls since. */
  ghost predicate Bounds(records: seq<Call>, t: int) {
    && t >= |records|
    && forall i :: 0 <= i < |records| ==> t >= records[i].clock + |records| - 1 - i
  }

  /** The time of a call is the least that no earlier clock reading, with a tick for every call since, exceeds. */
  lemma {:induction false} TimeIsLeast(records: seq<Call>, t: int)
    ensures Bounds(records, Run(records).lastObservedAt)
    ensures Bounds(records, t) ==> Run(records).lastObservedAt <= t
  {
    if records != [] {
      var n := |records| - 1;
      var shorter, last := records[..n], records[n];
      TimeIsLeast(shorter, t - 1);
      assert Run(records).lastObservedAt == ObservedAt(Run(shorter), last);
      hide Run;
      forall i | 0 <= i < n
        ensures records[i].clock == shorter[i].clock
      {
      }
      if Bounds(records, t) {
        assert t >= records[n].clock;
      }
    }
  }

  ghost function TimeOf(records: seq<Call>, n: nat): int
    requires n < |records|
  {
    Run(records[..n + 1]).lastObservedAt
  }

  /** The event of the n-th call: one that came with an input and was answered by a provider or with nothing. */
  ghost predicate IsEventOf(records: seq<Call>, n: nat, e: Event) {
    && n < |records| && records[n].input == Some(e.input)
    && e.route == records[n].route && e.source == records[n].source
    && records[n].source != SourceBacked && records[n].source != Canonical
    && e.observedAt == TimeOf(records, n)
  }

  lemma LastEventIs(records: seq<Call>, e: Event)
    requires records != []
    ensures IsEventOf(records, |records| - 1, e) <==>
            EventOf(Run(records[..|records| - 1]), records[|records| - 1]) == Some(e)
  {
    hide Pruned, Upserted, FirstOf, EventPersisted;
    assert records[..|records| - 1 + 1] == records;
  }

  lemma EarlierEventIs(records: seq<Call>, n: nat, e: Event)
    requires n + 1 < |records|
    ensures IsEventOf(records, n, e) <==> IsEventOf(records[..|records| - 1], n, e)
  {
    hide Run;
    assert records[..n + 1] == records[..|records| - 1][..n + 1];
  }

  /** What is recorded is the events of the calls, all of them and nothing else. */
  lemma {:induction false} RecordedIs(records: seq<Call>, e: Event)
    ensures e in Recorded(records) <==> exists n: nat :: IsEventOf(records, n, e)
  {
    if records != [] {
      var n := |records| - 1;
      var shorter, last := records[..n], records[n];
      RecordedIs(shorter, e);
      LastEventIs(records, e);
      assert e in Recorded(records) <==> e in Recorded(shorter) || EventOf(Run(shorter), last) == Some(e);
      forall i: nat | i < n
        ensures IsEventOf(records, i, e) <==> IsEventOf(shorter, i, e)
      {
        EarlierEventIs(records, i, e);
      }
      assert forall i: nat :: IsEventOf(records, i, e) ==> i <= n;
      assert forall i: nat :: IsEventOf(shorter, i, e) ==> i < n;
      hide Recorded, Run, IsEventOf, EventOf;
    }
  }

  predicate CountsFor(r: Call, cell: Cell) { (r.route, r.source) == cell && r.fault != CountFails }

  /** The times of the first and the last call counted for a cell. */
  ghost function FirstTime(records: seq<Call>, cell: Cell): Option<int> {
    if records == [] then None
    else
      var earlier := FirstTime(records[..|records| - 1], cell);
      if earlier.None? && CountsFor(records[|records| - 1], cell) then Some(Run(records).lastObservedAt) else earlier
  }

  ghost function LastTime(records: seq<Call>, cell: Cell): Option<int> {
    if records == [] then None
    else if CountsFor(records[|records| - 1], cell) then Some(Run(records).lastObservedAt)
    else LastTime(records[..|records| - 1], cell)
  }

  /** A counter row is there from the first call counted on, and shows its time and that of the last. */
  lemma {:induction false} CounterShowsEnds(records: seq<Call>, cell: Cell)
    ensures var counters := Run(records).counters;
            && (cell in counters <==> FirstTime(records, cell).Some?)
            && (cell in counters <==> LastTime(records, cell).Some?)
            && (cell in counters ==> FirstTime(records, cell) == Some(counters[cell].firstSeenAt)
                                     && LastTime(records, cell) == Some(counters[cell].lastSeenAt))
  {
    if records != [] {
      var shorter, last := records[..|records| - 1], records[|records| - 1];
      CounterShowsEnds(shorter, cell);
      CounterNext(Run(shorter), last, cell);
      assert Run(records) == Step(Run(shorter), last) && Run(records).lastObservedAt == ObservedAt(Run(shorter), last);
      hide Run, Step, ObservedAt;
    }
  }

  lemma CounterNext(s: State, r: Call, cell: Cell)
    ensures var before, after, now := s.counters, Step(s, r).counters, ObservedAt(s, r);
            if (r.route, r.source) == cell && r.fault != CountFails then
              && cell in after && after[cell].lastSeenAt == now
              && after[cell].firstSeenAt == if cell in before then before[cell].firstSeenAt else now
            else (cell in after <==> cell in before) && (cell in before ==> after[cell] == before[cell])
  {
    hide Pruned, EventOf, ObservedAt;
  }

  lemma {:induction false} RingIsNewest(records: seq<Call>)
    ensures Run(records).ring == FirstOf(Recorded(records), RECENT_EVENT_LIMIT)
    ensures Run(records).ring <= Recorded(records)
    ensures |Run(records).ring| == if |Recorded(records)| < 50 then |Recorded(records)| else 50
  {
    if records != [] {
      hide Pruned, EventOf, ObservedAt, EventPersisted;
      var shorter, last := records[..|records| - 1], records[|records| - 1];
      RingIsNewest(shorter);
      if EventOf(Run(shorter), last).Some? {
        FirstOfCons(EventOf(Run(shorter), last).value, Recorded(shorter), RECENT_EVENT_LIMIT);
      } else {
        assert [] + Recorded(shorter) == Recorded(shorter);
      }
    }
  }

  lemma FirstOfCons<T>(x: T, s: seq<T>, n: nat)
    requires n > 0
    ensures FirstOf([x] + FirstOf(s, n), n) == FirstOf([x] + s, n)
  {
  }

  // ---------------------------------------------------------------- the table

  function Ids(written: seq<(string, Event)>): seq<string> {
    seq(|written|, i requires 0 <= i < |written| => written[i].0)
  }

  function Events(written: seq<(string, Event)>): seq<Event> {
    seq(|written|, i requires 0 <= i < |written| => written[i].1)
  }

  /** The table that holds these rows. */
  function Table(written: seq<(string, Event)>): map<string, Event> {
    if written == [] then map[] else Table(written[1..])[written[0].0 := written[0].1]
  }

  predicate Distinct(written: seq<(string, Event)>) {
    written == [] || (written[0].0 !in Ids(written[1..]) && Distinct(written[1..]))
  }

  predicate Falling(written: seq<(string, Event)>, bound: int) {
    written == [] || (written[0].1.observedAt <= bound && Falling(written[1..], written[0].1.observedAt - 1))
  }

  lemma {:induction false} FallingBelow(written: seq<(string, Event)>, bound: int, higher: int)
    requires Falling(written, bound) && bound <= higher
    ensures Falling(written, higher)
  {
  }

  lemma {:induction false} FallingPrefix(written: seq<(string, Event)>, bound: int, n: nat)
    requires Falling(written, bound) && n <= |written|
    ensures Falling(written[..n], bound)
  {
    if n > 0 {
      FallingPrefix(written[1..], written[0].1.observedAt - 1, n - 1);
      assert written[..n][1..] == written[1..][..n - 1];
    }
  }

  lemma {:induction false} DistinctPrefix(written: seq<(string, Event)>, n: nat)
    requires Distinct(written) && n <= |written|
    ensures Distinct(written[..n])
  {
    if n > 0 {
      DistinctPrefix(written[1..], n - 1);
      assert written[..n][1..] == written[1..][..n - 1];
      forall id | id in Ids(written[1..][..n - 1])
        ensures id in Ids(written[1..])
      {
        var i :| 0 <= i < n - 1 && Ids(written[1..][..n - 1])[i] == id;
        assert Ids(written[1..])[i] == id;
      }
    }
  }

  lemma {:induction false} TableKeys(written: seq<(string, Event)>, id: string)
    ensures id in Table(written) <==> id in Ids(written)
  {
    if written != [] {
      TableKeys(written[1..], id);
      assert Ids(written) == [written[0].0] + Ids(written[1..]);
    }
  }

  lemma {:induction false} TableTimes(written: seq<(string, Event)>, bound: int, id: string)
    requires Falling(written, bound) && id in Table(written)
    ensures Table(written)[id].observedAt <= bound
  {
    if id != written[0].0 {
      TableTimes(written[1..], written[0].1.observedAt - 1, id);
    }
  }

  /** The newest row of a falling list is its first. */
  lemma NewestIsFirst(written: seq<(string, Event)>, bound: int)
    requires written != [] && Distinct(written) && Falling(written, bound)
    ensures Table(written) != map[] && Newest(Table(written)) == written[0].0
    ensures Table(written) - {written[0].0} == Table(written[1..])
  {
    var rows, id := Table(written), written[0].0;
    assert id in rows;
    forall j | j in rows && j != id
      ensures After(rows, id, j)
    {
      TableTimes(written[1..], written[0].1.observedAt - 1, j);
    }
    assert IsNewest(rows, id);
    NewestIsUnique(rows);
    TableKeys(written[1..], id);
  }

  lemma FirstIdsCons(written: seq<(string, Event)>, n: nat)
    requires n > 0 && written != []
    ensures Ids(FirstOf(written, n)) == [written[0].0] + Ids(FirstOf(written[1..], n - 1))
  {
    assert FirstOf(written, n) == [written[0]] + FirstOf(written[1..], n - 1);
  }

  lemma NoIds(written: seq<(string, Event)>)
    ensures Ids(FirstOf(written, 0)) == []
    ensures written == [] ==> Table(written) == map[] && forall n :: Ids(FirstOf(written, n)) == []
  {
  }

  lemma {:induction false} TopIsPrefix(written: seq<(string, Event)>, bound: int, n: nat)
    requires Distinct(written) && Falling(written, bound)
    ensures Top(Table(written), n) == Ids(FirstOf(written, n))
  {
    hide Newest, Table, Ids, FirstOf;
    if n > 0 && written != [] {
      NewestIsFirst(written, bound);
      TopIsPrefix(written[1..], written[0].1.observedAt - 1, n - 1);
      FirstIdsCons(written, n);
    } else {
      NoIds(written);
    }
  }

  lemma {:induction false} TableReads(written: seq<(string, Event)>, i: nat)
    requires Distinct(written) && i < |written|
    ensures written[i].0 in Table(written) && Table(written)[written[i].0] == written[i].1
  {
    if i > 0 {
      TableReads(written[1..], i - 1);
      assert written[1..][i - 1] == written[i];
      assert Ids(written[1..])[i - 1] == written[i].0;
    }
  }

  lemma ViewIsPrefix(written: seq<(string, Event)>, bound: int)
    requires Distinct(written) && Falling(written, bound)
    ensures View(Table(written)) == Events(FirstOf(written, RECENT_EVENT_LIMIT))
  {
    TopIsPrefix(written, bound, RECENT_EVENT_LIMIT);
    TopAreRows(Table(written), RECENT_EVENT_LIMIT);
    hide Top, Table, Distinct;
    var first := FirstOf(written, RECENT_EVENT_LIMIT);
    forall i | 0 <= i < |first|
      ensures Ids(first)[i] in Table(written) && Table(written)[Ids(first)[i]] == first[i].1
    {
      TableReads(written, i);
      assert first[i] == written[i];
    }
  }

  lemma {:induction false} PrefixTable(written: seq<(string, Event)>, n: nat, id: string)
    requires Distinct(written) && n <= |written|
    ensures id in Table(written[..n]) <==> id in Table(written) && id in Ids(written[..n])
    ensures id in Table(written[..n]) ==> Table(written[..n])[id] == Table(written)[id]
  {
    TableKeys(written[..n], id);
    if id in Ids(written[..n]) {
      var i :| 0 <= i < n && Ids(written[..n])[i] == id;
      DistinctPrefix(written, n);
      TableReads(written, i);
      TableReads(written[..n], i);
    }
  }

  lemma PrunedReads(rows: map<string, Event>, id: string)
    ensures id in Pruned(rows) <==> id in rows && id in Top(rows, RECENT_EVENT_LIMIT)
    ensures id in Pruned(rows) ==> Pruned(rows)[id] == rows[id]
  {
    hide Top;
  }

  lemma PrunedIsPrefix(written: seq<(string, Event)>, bound: int)
    requires Distinct(written) && Falling(written, bound)
    ensures Pruned(Table(written)) == Table(FirstOf(written, RECENT_EVENT_LIMIT))
  {
    hide Pruned, Top, Table, Distinct, Falling, Ids;
    TopIsPrefix(written, bound, RECENT_EVENT_LIMIT);
    var n := if |written| <= RECENT_EVENT_LIMIT then |written| else RECENT_EVENT_LIMIT;
    assert FirstOf(written, RECENT_EVENT_LIMIT) == written[..n];
    var kept, table := Pruned(Table(written)), Table(written[..n]);
    forall id
      ensures id in kept <==> id in table
      ensures id in kept ==> kept[id] == table[id]
    {
      PrunedReads(Table(written), id);
      PrefixTable(written, n, id);
    }
    assert kept.Keys == table.Keys;
  }

  lemma {:induction false} WrittenFalls(records: seq<Call>)
    ensures Falling(Written(records), Run(records).lastObservedAt)
  {
    if records != [] {
      hide Pruned;
      var shorter, last := records[..|records| - 1], records[|records| - 1];
      WrittenFalls(shorter);
      var before := Run(shorter);
      FallingBelow(Written(shorter), before.lastObservedAt, ObservedAt(before, last) - 1);
      FallingBelow(Written(shorter), before.lastObservedAt, ObservedAt(before, last));
      if EventPersisted(before, last) {
        assert Written(records)[1..] == Written(shorter);
      } else {
        assert Written(records) == Written(shorter);
      }
    }
  }

  /** The table is the newest rows written: at least the fifty newest, or all of them. */
  ghost predicate Keeps(rows: map<string, Event>, written: seq<(string, Event)>, k: nat) {
    && k <= |written| && (k >= RECENT_EVENT_LIMIT || k == |written|)
    && Distinct(written[..k]) && rows == Table(written[..k])
  }

  lemma InsertKeeps(rows: map<string, Event>, written: seq<(string, Event)>, k: nat, id: string, event: Event)
    requires Keeps(rows, written, k) && id !in rows
    ensures Keeps(rows[id := event], [(id, event)] + written, k + 1)
  {
    var more := [(id, event)] + written;
    assert more[..k + 1][1..] == written[..k];
    TableKeys(written[..k], id);
  }

  lemma PruneKeeps(rows: map<string, Event>, written: seq<(string, Event)>, k: nat, bound: int)
    requires Keeps(rows, written, k) && Falling(written, bound)
    ensures Keeps(Pruned(rows), written, if k <= RECENT_EVENT_LIMIT then k else RECENT_EVENT_LIMIT)
  {
    FallingPrefix(written, bound, k);
    PrunedIsPrefix(written[..k], bound);
    if k > RECENT_EVENT_LIMIT {
      DistinctPrefix(written[..k], RECENT_EVENT_LIMIT);
      assert written[..k][..RECENT_EVENT_LIMIT] == written[..RECENT_EVENT_LIMIT];
    }
  }

  lemma {:induction false} TableKeeps(records: seq<Call>) returns (k: nat)
    ensures Keeps(Run(records).rows, Written(records), k)
  {
    hide Keeps, Pruned, Falling;
    if records == [] {
      k := 0;
      EmptyKeeps();
    } else {
      var shorter, last := records[..|records| - 1], records[|records| - 1];
      k := TableKeeps(shorter);
      var before := Run(shorter);
      if EventPersisted(before, last) {
        var event := EventOf(before, last).value;
        InsertKeeps(before.rows, Written(shorter), k, last.id, event);
        k := k + 1;
        if last.fault != PruneFails {
          WrittenFalls(records);
          PruneKeeps(before.rows[last.id := event], Written(records), k, Run(records).lastObservedAt);
          k := if k <= RECENT_EVENT_LIMIT then k else RECENT_EVENT_LIMIT;
        }
      } else {
        assert Written(records) == Written(shorter);
      }
    }
  }

  lemma EmptyKeeps()
    ensures Keeps(map[], [], 0)
  {
  }

  /** What the table shows: the fifty newest events that reached it, whatever was pruned or failed. */
  lemma ViewIsNewestWritten(records: seq<Call>)
    ensures View(Run(records).rows) == FirstOf(Events(Written(records)), RECENT_EVENT_LIMIT)
  {
    var k := TableKeeps(records);
    var written := Written(records);
    WrittenFalls(records);
    FallingPrefix(written, Run(records).lastObservedAt, k);
    ViewIsPrefix(written[..k], Run(records).lastObservedAt);
    hide View, Run, Written, Table, Distinct, Falling;
    assert FirstOf(written[..k], RECENT_EVENT_LIMIT) == FirstOf(written, RECENT_EVENT_LIMIT);
    assert Events(FirstOf(written, RECENT_EVENT_LIMIT)) == FirstOf(Events(written), RECENT_EVENT_LIMIT);
  }

  /** No statement before the pruning failed, and every row id was new. */
  predicate AllPersisted(records: seq<Call>) {
    records == []
    || (var before, last := Run(records[..|records| - 1]), records[|records| - 1];
        && AllPersisted(records[..|records| - 1])
        && last.fault != CountFails
        && (EventOf(before, last).Some? ==> EventPersisted(before, last)))
  }

  lemma {:induction false} AllWritten(records: seq<Call>)
    requires AllPersisted(records)
    ensures Events(Written(records)) == Recorded(records)
  {
    hide Run, EventOf, EventPersisted, Events;
    if records == [] {
      NoEvents();
    } else {
      var shorter, last := records[..|records| - 1], records[|records| - 1];
      var before := Run(shorter);
      AllWritten(shorter);
      PersistedIsRecorded(before, last);
      if EventPersisted(before, last) {
        var row := (last.id, EventOf(before, last).value);
        assert Written(records) == [row] + Written(shorter);
        EventsCons(row, Written(shorter));
      } else {
        assert Written(records) == Written(shorter) && Recorded(records) == Recorded(shorter);
      }
    }
  }

  lemma NoEvents()
    ensures Events([]) == []
  {
  }

  lemma EventsCons(row: (string, Event), written: seq<(string, Event)>)
    ensures Events([row] + written) == [row.1] + Events(written)
  {
  }

  lemma {:induction false} NoFailedCounts(records: seq<Call>, cell: Cell)
    requires AllPersisted(records)
    ensures FailedCounts(records, cell) == 0
  {
    if records != [] { NoFailedCounts(records[..|records| - 1], cell); }
  }

  /** Memory and database agree after every run, even with a stalled clock or failed pruning. */
  lemma MemoryAndDatabaseAgree(records: seq<Call>)
    requires AllPersisted(records)
    ensures View(Run(records).rows) == Run(records).ring
    ensures forall cell :: Persisted(Run(records).counters, cell) == Counted(Run(records).counts, cell)
  {
    ViewIsNewestWritten(records);
    RingIsNewest(records);
    AllWritten(records);
    forall cell
      ensures Persisted(Run(records).counters, cell) == Counted(Run(records).counts, cell)
    {
      CountersAgree(records, cell);
      NoFailedCounts(records, cell);
    }
  }

  /** part is whole with some events left out. */
  ghost predicate Subsequence(part: seq<Event>, whole: seq<Event>) {
    part == []
    || (whole != [] && ((part[0] == whole[0] && Subsequence(part[1..], whole[1..])) || Subsequence(part, whole[1..])))
  }

  lemma {:induction false} SubsequenceMember(part: seq<Event>, whole: seq<Event>, e: Event)
    requires Subsequence(part, whole) && e in part
    ensures e in whole
    decreases |whole|
  {
    if part[0] == whole[0] && Subsequence(part[1..], whole[1..]) {
      if e != part[0] { SubsequenceMember(part[1..], whole[1..], e); }
    } else {
      SubsequenceMember(part, whole[1..], e);
    }
  }

  lemma {:induction false} DescendingMember(events: seq<Event>, bound: int, e: Event)
    requires Descending(events, bound) && e in events
    ensures e.observedAt <= bound
  {
    if e != events[0] { DescendingMember(events[1..], events[0].observedAt - 1, e); }
  }

  lemma SubsequenceGrows(part: seq<Event>, whole: seq<Event>, e: Event)
    requires Subsequence(part, whole)
    ensures Subsequence([e] + part, [e] + whole) && Subsequence(part, [e] + whole)
  {
    assert ([e] + part)[1..] == part && ([e] + whole)[1..] == whole;
  }

  lemma {:induction false} WrittenIsSubsequence(calls: seq<Call>)
    ensures Subsequence(Events(Written(calls)), Recorded(calls))
  {
    hide Run, EventOf, EventPersisted, Events;
    if calls == [] {
      NoEvents();
    } else {
      var shorter, last := calls[..|calls| - 1], calls[|calls| - 1];
      WrittenIsSubsequence(shorter);
      var before := Run(shorter);
      var part, whole := Events(Written(shorter)), Recorded(shorter);
      PersistedIsRecorded(before, last);
      if EventPersisted(before, last) {
        var row := (last.id, EventOf(before, last).value);
        assert Written(calls) == [row] + Written(shorter) && Recorded(calls) == [row.1] + whole;
        EventsCons(row, Written(shorter));
        SubsequenceGrows(part, whole, row.1);
      } else {
        assert Written(calls) == Written(shorter);
        if EventOf(before, last).Some? {
          SubsequenceGrows(part, whole, EventOf(before, last).value);
          assert Recorded(calls) == [EventOf(before, last).value] + whole;
        } else {
          assert Recorded(calls) == whole;
        }
      }
    }
  }

  lemma PersistedIsRecorded(s: State, r: Call)
    ensures EventPersisted(s, r) ==> EventOf(s, r).Some?
  {
  }

  /** If the n newest of the whole are all in the part, they are the n newest of the part. */
  lemma {:induction false} NewestKept(part: seq<Event>, whole: seq<Event>, bound: int, n: nat)
    requires Subsequence(part, whole) && Descending(whole, bound)
    requires forall e :: e in FirstOf(whole, n) ==> e in part
    ensures FirstOf(part, n) == FirstOf(whole, n)
    decreases n
  {
    if n > 0 && whole != [] {
      HeadKept(part, whole, bound, n);
      forall f | f in FirstOf(whole[1..], n - 1)
        ensures f in part[1..]
      {
        LaterInTail(part, whole, bound, n, f);
      }
      hide Subsequence, Descending;
      NewestKept(part[1..], whole[1..], whole[0].observedAt - 1, n - 1);
      FirstOfHead(part, n);
      FirstOfHead(whole, n);
    } else {
      assert FirstOf(whole, n) == [];
    }
  }

  lemma FirstOfHead(s: seq<Event>, n: nat)
    requires n > 0 && s != []
    ensures FirstOf(s, n) == [s[0]] + FirstOf(s[1..], n - 1)
  {
  }

  lemma HeadKept(part: seq<Event>, whole: seq<Event>, bound: int, n: nat)
    requires n > 0 && whole != [] && Subsequence(part, whole) && Descending(whole, bound)
    requires forall e :: e in FirstOf(whole, n) ==> e in part
    ensures part != [] && part[0] == whole[0] && Subsequence(part[1..], whole[1..])
    ensures Descending(whole[1..], whole[0].observedAt - 1)
  {
    var e := whole[0];
    assert FirstOf(whole, n)[0] == e;
    assert e in FirstOf(whole, n);
    if Subsequence(part, whole[1..]) {
      SubsequenceMember(part, whole[1..], e);
      DescendingMember(whole[1..], e.observedAt - 1, e);
      assert false;
    }
  }

  lemma LaterInTail(part: seq<Event>, whole: seq<Event>, bound: int, n: nat, f: Event)
    requires n > 0 && whole != [] && part != [] && part[0] == whole[0] && Descending(whole, bound)
    requires forall e :: e in FirstOf(whole, n) ==> e in part
    requires f in FirstOf(whole[1..], n - 1)
    ensures f in part[1..]
  {
    var i :| 0 <= i < |FirstOf(whole[1..], n - 1)| && FirstOf(whole[1..], n - 1)[i] == f;
    assert whole[1..][i] == f && whole[1 + i] == f && FirstOf(whole, n)[1 + i] == f;
    assert f in whole[1..] && f in FirstOf(whole, n);
    DescendingMember(whole[1..], whole[0].observedAt - 1, f);
    var j :| 0 <= j < |part| && part[j] == f;
    assert j > 0 && part[1..][j - 1] == f;
  }

  /** Ring and table view agree exactly when every event still in the ring reached the table. */
  lemma RingMatchesViewIff(calls: seq<Call>)
    ensures View(Run(calls).rows) == Run(calls).ring <==> forall e :: e in Run(calls).ring ==> e in Events(Written(calls))
  {
    ViewIsNewestWritten(calls);
    RingIsNewest(calls);
    TimesDescend(calls);
    WrittenIsSubsequence(calls);
    hide View, Events, Written, Recorded, Descending, Subsequence;
    var part, whole := Events(Written(calls)), Recorded(calls);
    if forall e :: e in Run(calls).ring ==> e in part {
      NewestKept(part, whole, Run(calls).lastObservedAt, RECENT_EVENT_LIMIT);
    }
    assert forall e :: e in FirstOf(part, RECENT_EVENT_LIMIT) ==> e in part;
  }

  // ---------------------------------------------------------------- the diagnostics object

  class Diagnostics {
    var counts: map<Cell, nat>
    var events: seq<Event>
    var lastObservedAt: int
    var counters: map<Cell, Counter>
    var rows: map<string, Event>
    ghost var history: seq<Call>

    ghost function Contents(): State
      reads this
    {
      State(counts, events, lastObservedAt, counters, rows)
    }

    /** The fields are what the calls recorded so far add up to. */
    ghost predicate Valid()
      reads this
    {
      Contents() == Run(history)
    }

    constructor ()
      ensures Valid() && history == []
    {
      counts, events, lastObservedAt, counters, rows, history := map[], [], 0, map[], map[], [];
    }

    method NextObservedAt(now: int) returns (observedAt: int)
      modifies this`lastObservedAt
      ensures observedAt == lastObservedAt > old(lastObservedAt) && observedAt >= now
      ensures observedAt == now || observedAt == old(lastObservedAt) + 1
      ensures observedAt == if now > old(lastObservedAt) + 1 then now else old(lastObservedAt) + 1
    {
      observedAt := if now > lastObservedAt + 1 then now else lastObservedAt + 1;
      lastObservedAt := observedAt;
    }

    method PersistCount(cell: Cell, now: int)
      modifies this`counters
      ensures counters == Upserted(old(counters), cell, now)
    {
      if cell in counters {
        counters := counters[cell := counters[cell].(count := counters[cell].count + 1, lastSeenAt := now)];
      } else {
        counters := counters[cell := Counter(1, now, now)];
      }
    }

    /** The statements of one call, in order, up to the one that fails. */
    method Persist(cell: Cell, event: Option<Event>, observedAt: int, id: string, fault: Fault)
      modifies this`counters, this`rows
      ensures counters == if fault == CountFails then old(counters) else Upserted(old(counters), cell, observedAt)
      ensures rows ==
              if event.None? || fault == CountFails || fault == InsertFails || id in old(rows) then old(rows)
              else if fault == PruneFails then old(rows)[id := event.value]
              else Pruned(old(rows)[id := event.value])
    {
      hide Pruned, Upserted;
      if fault == CountFails { return; }
      PersistCount(cell, observedAt);
      if event.None? || fault == InsertFails || id in rows { return; }
      rows := rows[id := event.value];
      if fault == PruneFails { return; }
      rows := Pruned(rows);
    }

    /** One record call: a step of the run, so what is proved of every run holds after it. */
    method Record(route: Route, source: Source, input: Option<Input>, clock: int, id: string, fault: Fault)
      requires Valid()
      modifies this
      ensures Valid() && history == old(history) + [Call(route, source, input, clock, id, fault)]
    {
      ghost var before, call := Contents(), Call(route, source, input, clock, id, fault);
      StepParts(before, call);
      RunNext(history, call);
      hide Step, Run, Pruned, Upserted, Counted, FirstOf, Recent, EventOf, ObservedAt;
      var cell := (route, source);
      counts := counts[cell := Counted(counts, cell) + 1];
      var observedAt := NextObservedAt(clock);
      var shouldRecordEvent := input.Some? && Recent(source);
      var event := if shouldRecordEvent then Some(Event(route, source, input.value, observedAt)) else None;
      Persist(cell, event, observedAt, id, fault);
      if shouldRecordEvent {
        events := FirstOf([event.value] + events, RECENT_EVENT_LIMIT);
      }
      assert Contents() == Step(before, call);
      history := history + [call];
    }

    /** The counters and events a caller sees: the tables when they can be read, memory otherwise. */
    method Snapshot(cell: Cell, readable: bool) returns (count: nat)
      ensures count == if readable then Persisted(counters, cell) else Counted(counts, cell)
      ensures Valid() && AllPersisted(history) ==> count == CallCount(history, cell)
    {
      count := if readable then Persisted(counters, cell) else Counted(counts, cell);
      if Valid() && AllPersisted(history) {
        CountersAgree(history, cell);
        NoFailedCounts(history, cell);
      }
    }

    method RecentEvents(readable: bool) returns (recent: seq<Event>)
      ensures recent == if readable then View(rows) else events
      ensures Valid() && AllPersisted(history) ==> recent == FirstOf(Recorded(history), RECENT_EVENT_LIMIT)
    {
      recent := if readable then View(rows) else events;
      if Valid() && AllPersisted(history) {
        MemoryAndDatabaseAgree(history);
        RingIsNewest(history);
      }
    }
  }

  /** A step, field by field. */
  lemma StepParts(s: State, r: Call)
    ensures var t, cell, now := Step(s, r), (r.route, r.source), ObservedAt(s, r);
            var event := if r.input.Some? && Recent(r.source)
                         then Some(Event(r.route, r.source, r.input.value, now)) else None;
            && now == (if r.clock > s.lastObservedAt + 1 then r.clock else s.lastObservedAt + 1) == t.lastObservedAt
            && t.counts == s.counts[cell := Counted(s.counts, cell) + 1]
            && t.ring == (if event.Some? then FirstOf([event.value] + s.ring, RECENT_EVENT_LIMIT) else s.ring)
            && t.counters == (if r.fault == CountFails then s.counters else Upserted(s.counters, cell, now))
            && t.rows == if event.None? || r.fault == CountFails || r.fault == InsertFails || r.id in s.rows then s.rows
                         else if r.fault == PruneFails then s.rows[r.id := event.value]
                         else Pruned(s.rows[r.id := event.value])
  {
    hide Pruned, Upserted, Counted, FirstOf, Recent;
  }

  lemma RunNext(calls: seq<Call>, call: Call)
    ensures Run(calls + [call]) == Step(Run(calls), call)
  {
    hide Step;
    assert (calls + [call])[..|calls + [call]| - 1] == calls;
  }
}
