/**
 * Choosing and thinning chart rows: the best row per timestamp
 * (src/services/market-chart-ingestion.ts) and downsampling (src/modules/chart-semantics.ts).
 * Timestamps and granularities are integer milliseconds.
 */
module ChartSemantics {
  import opened Common

  datatype Row<+V> = Row(timestamp: int, live: bool, fetchedAt: Option<int>, value: V)

  // ---------------------------------------------------------------- best row per timestamp

  function Fetched<V>(r: Row<V>): int { if r.fetchedAt.Some? then r.fetchedAt.value else 0 }

  /** Live rows beat replayed ones, then the later fetch wins. */
  predicate Beats<V>(r: Row<V>, s: Row<V>) {
    (r.live && !s.live) || (r.live == s.live && Fetched(r) > Fetched(s))
  }

  /** What the map holds for a timestamp after reading the rows in order. */
  function Best<V>(rows: seq<Row<V>>, t: int): Option<Row<V>> {
    if rows == [] then None
    else
      var before, last := Best(rows[..|rows| - 1], t), rows[|rows| - 1];
      if last.timestamp == t && (before.None? || Beats(last, before.value)) then Some(last) else before
  }

  /** The chosen row is one of the timestamp's rows, none beats it, and none before it is its equal. */
  lemma {:induction false} BestIsBest<V>(rows: seq<Row<V>>, t: int) returns (at: nat)
    requires exists i :: 0 <= i < |rows| && rows[i].timestamp == t
    ensures at < |rows| && rows[at].timestamp == t && Best(rows, t) == Some(rows[at])
    ensures forall i :: 0 <= i < |rows| && rows[i].timestamp == t ==> !Beats(rows[i], rows[at])
    ensures forall i :: 0 <= i < at && rows[i].timestamp == t ==> Beats(rows[at], rows[i])
  {
    var n := |rows| - 1;
    var shorter, last := rows[..n], rows[n];
    if i :| 0 <= i < n && rows[i].timestamp == t {
      assert shorter[i].timestamp == t;
      at := BestIsBest(shorter, t);
      assert rows[at] == shorter[at];
      if last.timestamp == t && Beats(last, rows[at]) {
        forall i | 0 <= i < n && rows[i].timestamp == t
          ensures Beats(last, rows[i]) && !Beats(rows[i], last)
        {
          assert shorter[i] == rows[i];
        }
        at := n;
      }
    } else {
      NoneBefore(shorter, t);
      at := n;
    }
  }

  /** A row replayed or live, and when it was fetched if that is known: 0, the epoch, stands for an unknown time. */
  ghost predicate FetchedAt<V>(r: Row<V>, time: int) {
    r.fetchedAt == Some(time) || (r.fetchedAt.None? && time == 0)
  }

  /** A live row is kept if the timestamp has one; among its like none was fetched later, and the first of the latest is kept. */
  lemma BestIsLatest<V>(rows: seq<Row<V>>, t: int, i: nat, mine: int, other: int) returns (at: nat)
    requires i < |rows| && rows[i].timestamp == t
    ensures at < |rows| && rows[at].timestamp == t && Best(rows, t) == Some(rows[at])
    ensures rows[i].live ==> rows[at].live
    ensures rows[i].live == rows[at].live && FetchedAt(rows[at], mine) && FetchedAt(rows[i], other) ==>
              other < mine || (other == mine && at <= i)
  {
    at := BestIsBest(rows, t);
  }

  lemma {:induction false} NoneBefore<V>(rows: seq<Row<V>>, t: int)
    requires forall i :: 0 <= i < |rows| ==> rows[i].timestamp != t
    ensures Best(rows, t) == None
  {
    if rows != [] { NoneBefore(rows[..|rows| - 1], t); }
  }

  ghost predicate StrictlyAscending<V>(rows: seq<Row<V>>) {
    forall i, j :: 0 <= i < j < |rows| ==> rows[i].timestamp < rows[j].timestamp
  }

  /** One row per timestamp, the best one, in strictly ascending order. */
  method LatestRowsByTimestamp<V>(rows: seq<Row<V>>) returns (latest: seq<Row<V>>)
    ensures StrictlyAscending(latest)
    ensures forall i :: 0 <= i < |latest| ==> Best(rows, latest[i].timestamp) == Some(latest[i])
    ensures forall i :: 0 <= i < |rows| ==> exists j :: 0 <= j < |latest| && latest[j].timestamp == rows[i].timestamp
  {
    var byTimestamp: map<int, Row<V>> := map[];
    assert rows[..0] == [];
    var n := 0;
    while n < |rows|
      invariant 0 <= n <= |rows|
      invariant forall t :: (t in byTimestamp <==> Best(rows[..n], t).Some?)
      invariant forall t :: t in byTimestamp ==> Best(rows[..n], t) == Some(byTimestamp[t]) && byTimestamp[t].timestamp == t
      invariant forall i :: 0 <= i < n ==> rows[i].timestamp in byTimestamp
    {
      var row := rows[n];
      var key := row.timestamp;
      forall t
        ensures var before := Best(rows[..n], t);
                Best(rows[..n + 1], t) ==
                if key == t && (before.None? || Beats(row, before.value)) then Some(row) else before
      {
        BestNext(rows, n, t);
      }
      hide Best, Beats;
      if key !in byTimestamp || Beats(row, byTimestamp[key]) {
        byTimestamp := byTimestamp[key := row];
      }
      n := n + 1;
    }
    assert rows[..n] == rows;
    hide Best;
    latest := InOrder(byTimestamp);
    InOrderIs(byTimestamp);
  }

  lemma BestNext<V>(rows: seq<Row<V>>, n: nat, t: int)
    requires n < |rows|
    ensures var before, row := Best(rows[..n], t), rows[n];
            Best(rows[..n + 1], t) ==
            if row.timestamp == t && (before.None? || Beats(row, before.value)) then Some(row) else before
  {
    hide Beats;
    assert rows[..n + 1][..n] == rows[..n];
  }

  /** The values of the map, sorted by timestamp. */
  function InOrder<V>(byTimestamp: map<int, Row<V>>): seq<Row<V>> {
    SortedIs(byTimestamp.Keys);
    var keys := Sorted(byTimestamp.Keys);
    assert forall i :: 0 <= i < |keys| ==> keys[i] in Elements(keys);
    seq(|keys|, i requires 0 <= i < |keys| => byTimestamp[keys[i]])
  }

  lemma InOrderIs<V>(byTimestamp: map<int, Row<V>>)
    requires forall t :: t in byTimestamp ==> byTimestamp[t].timestamp == t
    ensures StrictlyAscending(InOrder(byTimestamp))
    ensures forall i :: 0 <= i < |InOrder(byTimestamp)| ==>
              var row := InOrder(byTimestamp)[i]; row.timestamp in byTimestamp && byTimestamp[row.timestamp] == row
    ensures forall t :: t in byTimestamp ==>
              exists j :: 0 <= j < |InOrder(byTimestamp)| && InOrder(byTimestamp)[j].timestamp == t
  {
    SortedIs(byTimestamp.Keys);
    var keys, rows := Sorted(byTimestamp.Keys), InOrder(byTimestamp);
    assert |rows| == |keys|;
    forall i | 0 <= i < |keys|
      ensures keys[i] in byTimestamp && rows[i] == byTimestamp[keys[i]] && rows[i].timestamp == keys[i]
    {
      assert keys[i] in Elements(keys);
    }
    forall t | t in byTimestamp
      ensures exists j :: 0 <= j < |rows| && rows[j].timestamp == t
    {
      assert t in Elements(keys);
      var j :| 0 <= j < |keys| && keys[j] == t;
      assert rows[j].timestamp == t;
    }
  }

  // ---------------------------------------------------------------- downsampling

  const HOUR_MS := 3_600_000
  const DAY_MS := 86_400_000

  function GranularityMs(duration: int): int {
    if duration <= DAY_MS then HOUR_MS
    else if duration <= 30 * DAY_MS then DAY_MS
    else if duration <= 90 * DAY_MS then 2 * DAY_MS
    else 7 * DAY_MS
  }

  /** An hour up to a day, a day up to thirty, two days up to ninety, then a week. */
  lemma GranularityIs(duration: int)
    ensures var g := GranularityMs(duration);
            && (g == 3_600_000 <==> duration <= 86_400_000)
            && (g == 24 * 3_600_000 <==> 86_400_000 < duration <= 2_592_000_000)
            && (g == 2 * 86_400_000 <==> 2_592_000_000 < duration <= 7_776_000_000)
            && (g == 7 * 86_400_000 <==> 7_776_000_000 < duration)
  {
  }

  /** The sample after the first n rows: the first row, then each row at least g after the last one kept. */
  function Kept<V>(rows: seq<Row<V>>, n: nat, g: int): (s: seq<Row<V>>)
    requires 1 <= n <= |rows|
    ensures s != []
  {
    if n == 1 then [rows[0]]
    else
      var s, row := Kept(rows, n - 1, g), rows[n - 1];
      if row.timestamp - s[|s| - 1].timestamp >= g then s + [row] else s
  }

  function Downsampled<V>(rows: seq<Row<V>>, g: int): seq<Row<V>> {
    if |rows| <= 2 || g <= 0 then rows
    else
      var s, last := Kept(rows, |rows| - 1, g), rows[|rows| - 1];
      if s[|s| - 1].timestamp != last.timestamp then s + [last] else s
  }

  method DownsampleTimeSeries<V>(rows: seq<Row<V>>, g: int) returns (sampled: seq<Row<V>>)
    ensures sampled == Downsampled(rows, g)
  {
    if |rows| <= 2 || g <= 0 { return rows; }
    sampled := [rows[0]];
    var lastIncluded := rows[0].timestamp;
    var n := 1;
    while n < |rows| - 1
      invariant 1 <= n <= |rows| - 1
      invariant sampled == Kept(rows, n, g) && lastIncluded == sampled[|sampled| - 1].timestamp
    {
      var current := rows[n].timestamp;
      if current - lastIncluded >= g {
        sampled := sampled + [rows[n]];
        lastIncluded := current;
      }
      n := n + 1;
    }
    var last := rows[|rows| - 1];
    if sampled[|sampled| - 1].timestamp != last.timestamp {
      sampled := sampled + [last];
    }
  }

  /** Among the first n rows, consecutive ones are at least g apart. */
  predicate Spaced<V>(s: seq<Row<V>>, n: nat, g: int)
    requires n <= |s|
  {
    n <= 1 || (s[n - 1].timestamp - s[n - 2].timestamp >= g && Spaced(s, n - 1, g))
  }

  lemma {:induction false} SpacedAgain<V>(s: seq<Row<V>>, t: seq<Row<V>>, n: nat, g: int)
    requires n <= |s| && n <= |t| && s[..n] == t[..n] && Spaced(s, n, g)
    ensures Spaced(t, n, g)
  {
    if n > 1 {
      assert s[n - 1] == s[..n][n - 1] && s[n - 2] == s[..n][n - 2];
      assert t[n - 1] == t[..n][n - 1] && t[n - 2] == t[..n][n - 2];
      assert s[..n - 1] == s[..n][..n - 1] && t[..n - 1] == t[..n][..n - 1];
      SpacedAgain(s, t, n - 1, g);
    }
  }

  /** s is t with some rows left out. */
  ghost predicate Subsequence<V>(s: seq<Row<V>>, t: seq<Row<V>>) {
    s == []
    || (t != [] && (Subsequence(s, t[..|t| - 1])
                    || (s[|s| - 1] == t[|t| - 1] && Subsequence(s[..|s| - 1], t[..|t| - 1]))))
  }

  lemma {:induction false} KeptIsSpaced<V>(rows: seq<Row<V>>, n: nat, g: int)
    requires 1 <= n <= |rows|
    ensures var s := Kept(rows, n, g); Spaced(s, |s|, g)
  {
    if n > 1 {
      KeptIsSpaced(rows, n - 1, g);
      var before, s := Kept(rows, n - 1, g), Kept(rows, n, g);
      hide Kept;
      if s != before {
        assert s[..|before|] == before == before[..|before|];
        SpacedAgain(before, s, |before|, g);
      }
    }
  }

  lemma {:induction false} SpacedRows<V>(s: seq<Row<V>>, n: nat, g: int, i: nat)
    requires i + 1 < n <= |s| && Spaced(s, n, g)
    ensures s[i + 1].timestamp - s[i].timestamp >= g
  {
    if i + 2 < n { SpacedRows(s, n - 1, g, i); }
  }

  /**
   * Two rows or a granularity of nothing leave the list as it is; else kept rows are a granularity apart but
   * for the last two, no timestamp is kept twice in a row, and the last timestamp is kept.
   */
  lemma SampleIsSpaced<V>(rows: seq<Row<V>>, g: int, i: nat)
    ensures |rows| <= 2 || g <= 0 ==> Downsampled(rows, g) == rows
    ensures var s := Downsampled(rows, g);
            |rows| > 2 && g > 0 ==>
              && (i + 2 < |s| ==> s[i + 1].timestamp - s[i].timestamp >= g)
              && (i + 1 < |s| ==> s[i + 1].timestamp != s[i].timestamp)
              && s != [] && s[|s| - 1].timestamp == rows[|rows| - 1].timestamp
  {
    if |rows| > 2 && g > 0 {
      var n := |rows| - 1;
      KeptIsSpaced(rows, n, g);
      var s, whole := Kept(rows, n, g), Downsampled(rows, g);
      assert s == whole[..|s|] && |whole| <= |s| + 1;
      if i + 1 < |s| { SpacedRows(s, |s|, g, i); }
    }
  }

  lemma {:induction false} KeptIsSubsequence<V>(rows: seq<Row<V>>, n: nat, g: int)
    requires 1 <= n <= |rows|
    ensures Subsequence(Kept(rows, n, g), rows[..n]) && Kept(rows, n, g)[0] == rows[0]
  {
    assert rows[..n][..n - 1] == rows[..n - 1];
    if n == 1 {
      assert rows[..1] == [rows[0]];
      assert Subsequence([rows[0]][..0], rows[..0]);
    } else {
      KeptIsSubsequence(rows, n - 1, g);
      var s := Kept(rows, n - 1, g);
      assert (s + [rows[n - 1]])[..|s|] == s;
    }
  }

  lemma {:induction false} SpacedIsKept<V>(s: seq<Row<V>>, n: nat, g: int)
    requires 1 <= n <= |s| && Spaced(s, n, g)
    ensures Kept(s, n, g) == s[..n]
  {
    if n > 1 {
      SpacedIsKept(s, n - 1, g);
      assert s[..n] == s[..n - 1] + [s[n - 1]];
    } else {
      assert s[..1] == [s[0]];
    }
  }

  lemma {:induction false} SpacedBefore<V>(s: seq<Row<V>>, n: nat, m: nat, g: int)
    requires m <= n <= |s| && Spaced(s, n, g)
    ensures Spaced(s, m, g)
    ensures n > 1 && g > 0 ==> s[n - 1].timestamp != s[n - 2].timestamp
  {
    if m < n { SpacedBefore(s, n - 1, m, g); }
  }

  /** Downsampling twice is downsampling once, for every row list, ordered or not, and every granularity. */
  lemma DownsamplingIsIdempotent<V>(rows: seq<Row<V>>, g: int)
    ensures Downsampled(Downsampled(rows, g), g) == Downsampled(rows, g)
  {
    if |rows| > 2 && g > 0 {
      var s, result := Kept(rows, |rows| - 1, g), Downsampled(rows, g);
      KeptIsSpaced(rows, |rows| - 1, g);
      hide Kept;
      if |result| > 2 {
        var m := |result| - 1;
        assert result[..|s|] == s == s[..|s|];
        SpacedAgain(s, result, |s|, g);
        SpacedBefore(result, |s|, m, g);
        SpacedIsKept(result, m, g);
        hide Spaced;
        assert result == result[..m] + [result[m]];
      }
    }
  }

  /** A subsequence with the same first row; with the same last row too when timestamps are strictly ascending. */
  lemma DownsampledKeepsEnds<V>(rows: seq<Row<V>>, g: int)
    requires rows != []
    ensures var s := Downsampled(rows, g);
            && s != [] && Subsequence(s, rows) && s[0] == rows[0]
            && (StrictlyAscending(rows) ==> s[|s| - 1] == rows[|rows| - 1])
  {
    var n := |rows| - 1;
    if |rows| > 2 && g > 0 {
      KeptIsSubsequence(rows, n, g);
      var s := Kept(rows, n, g);
      assert (s + [rows[n]])[..|s|] == s;
      if StrictlyAscending(rows) {
        LastKept(rows, n, g);
      }
    } else {
      IsOwnSubsequence(rows);
    }
  }

  lemma {:induction false} IsOwnSubsequence<V>(rows: seq<Row<V>>)
    ensures Subsequence(rows, rows)
  {
    if rows != [] { IsOwnSubsequence(rows[..|rows| - 1]); }
  }

  lemma {:induction false} LastKept<V>(rows: seq<Row<V>>, n: nat, g: int)
    requires 1 <= n <= |rows| && StrictlyAscending(rows)
    ensures var s := Kept(rows, n, g);
            rows[0].timestamp <= s[|s| - 1].timestamp <= rows[n - 1].timestamp
  {
    if n > 1 { LastKept(rows, n - 1, g); }
  }

  /** Every row that was read is one that was kept, or lies less than g after a kept one. */
  lemma {:induction false} KeptCovers<V>(rows: seq<Row<V>>, n: nat, g: int, i: nat)
    requires 1 <= n <= |rows| && g > 0 && StrictlyAscending(rows) && i < n
    ensures exists k :: k in Kept(rows, n, g) && k.timestamp <= rows[i].timestamp < k.timestamp + g
  {
    var s := Kept(rows, n, g);
    if i == n - 1 {
      LastKept(rows, n, g);
      assert s[|s| - 1] in s;
      if n > 1 { LastKept(rows, n - 1, g); }
    } else {
      KeptCovers(rows, n - 1, g, i);
      var k :| k in Kept(rows, n - 1, g) && k.timestamp <= rows[i].timestamp < k.timestamp + g;
      assert k in s;
    }
  }

  lemma DroppedRowsAreClose<V>(rows: seq<Row<V>>, g: int, i: nat)
    requires i < |rows| && g > 0 && StrictlyAscending(rows)
    ensures exists k :: k in Downsampled(rows, g) && k.timestamp <= rows[i].timestamp < k.timestamp + g
  {
    if |rows| > 2 && i < |rows| - 1 {
      KeptCovers(rows, |rows| - 1, g, i);
      var k :| k in Kept(rows, |rows| - 1, g) && k.timestamp <= rows[i].timestamp < k.timestamp + g;
      assert k in Downsampled(rows, g);
    } else if |rows| <= 2 {
      assert rows[i] in Downsampled(rows, g);
    } else {
      DownsampledKeepsEnds(rows, g);
      var s := Downsampled(rows, g);
      assert s[|s| - 1] in s && s[|s| - 1] == rows[i];
    }
  }

  lemma {:induction false} KeptSpan<V>(rows: seq<Row<V>>, n: nat, g: int)
    requires 1 <= n <= |rows| && g > 0
    ensures var s := Kept(rows, n, g); (|s| - 1) * g <= s[|s| - 1].timestamp - rows[0].timestamp
  {
    if n > 1 {
      KeptSpan(rows, n - 1, g);
      var s := Kept(rows, n - 1, g);
      assert |s| * g == (|s| - 1) * g + g;
    }
  }

  /** At most ceil(span / g) + 1 rows are left of two or more. */
  lemma LengthBound<V>(rows: seq<Row<V>>, g: int)
    requires |rows| >= 2 && g > 0 && StrictlyAscending(rows)
    ensures (|Downsampled(rows, g)| - 2) * g < rows[|rows| - 1].timestamp - rows[0].timestamp
  {
    var n := |rows| - 1;
    assert rows[0].timestamp < rows[n].timestamp;
    if |rows| > 2 {
      LastKept(rows, n, g);
      KeptSpan(rows, n, g);
      assert rows[n - 1].timestamp < rows[n].timestamp;
    }
  }

  lemma Quotient(length: int, g: int, span: int, limit: int)
    requires g > 0 && (length - 2) * g < span <= limit * g
    ensures length <= limit + 1
  {
    if length - 2 >= limit {
      Multiples(length - 2, limit, g);
      assert false;
    }
  }

  lemma Multiples(a: int, b: int, g: int)
    requires a >= b && g > 0
    ensures a * g >= b * g
  {
  }

  /** The point counts the chart granularities give. */
  lemma ChartPointLimits<V>(rows: seq<Row<V>>, duration: int)
    requires |rows| >= 2 && StrictlyAscending(rows)
    requires rows[|rows| - 1].timestamp - rows[0].timestamp <= duration
    ensures var length := |Downsampled(rows, GranularityMs(duration))|;
            && (duration <= DAY_MS ==> length <= 25)
            && (DAY_MS < duration <= 30 * DAY_MS ==> length <= 31)
            && (30 * DAY_MS < duration <= 90 * DAY_MS ==> length <= 46)
  {
    var g := GranularityMs(duration);
    LengthBound(rows, g);
    var length, span := |Downsampled(rows, g)|, rows[|rows| - 1].timestamp - rows[0].timestamp;
    hide Downsampled;
    if duration <= DAY_MS {
      Quotient(length, g, span, 24);
    } else if duration <= 30 * DAY_MS {
      Quotient(length, g, span, 30);
    } else if duration <= 90 * DAY_MS {
      Quotient(length, g, span, 45);
    }
  }
}
