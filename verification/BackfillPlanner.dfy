/**
 * The history backfill planner (src/services/history-backfill-planner.ts) and the manifest parser
 * that supplies its targets (src/services/coverage-targets.ts). Dates are integer milliseconds;
 * trimming, lowercasing and localeCompare are functions passed in.
 */
module BackfillPlanner {
  import opened Common
  import opened Text
  import opened StableSort

  const DAY_MS := 86_400_000
  const FIRST_SYNC_WINDOW_DAYS := 30
  const CHUNK_DAYS := 180

  datatype Target = Target(
    family: string, provider: string, entityType: string, entityId: string, interval: string, vsCurrency: string,
    tier: string, targetHistoryDays: int, freshnessSloSeconds: int, productionFreshnessSloSeconds: int,
    enabled: bool, priority: int)

  // ---------------------------------------------------------------- parsing the manifest

  datatype ManifestRow = ManifestRow(
    family: string, provider: string, entityType: string, entityId: string, interval: string, vsCurrency: string,
    tier: string, targetHistoryDays: real, freshnessSloSeconds: real, productionFreshnessSloSeconds: real,
    enabled: bool, priority: real)

  datatype Parsed = Targets(targets: seq<Target>) | Rejected

  function KeyOf(family: string, provider: string, entityType: string, entityId: string,
                 interval: string, vsCurrency: string): string
  {
    Joined([family, provider, entityType, entityId, interval, vsCurrency], ":")
  }

  function TargetKey(t: Target): string {
    KeyOf(t.family, t.provider, t.entityType, t.entityId, t.interval, t.vsCurrency)
  }

  predicate PositiveInteger(x: real) { x == x.Floor as real && x > 0.0 }

  /** The row with its text normalized. */
  function Normalized(row: ManifestRow, normalize: string -> string, trim: string -> string): Target {
    Target(normalize(row.family), normalize(row.provider), normalize(row.entityType), normalize(row.entityId),
           normalize(row.interval), normalize(row.vsCurrency), trim(row.tier), row.targetHistoryDays.Floor,
           row.freshnessSloSeconds.Floor, row.productionFreshnessSloSeconds.Floor, row.enabled, row.priority.Floor)
  }

  predicate RowAccepted(row: ManifestRow, t: Target) {
    && t.provider != "" && t.entityId != "" && t.vsCurrency != ""
    && t.family in ["market_charts", "ohlcv"] && t.entityType in ["coin"]
    && t.interval in ["1d", "1h", "1m"] && t.tier in ["S", "A", "B", "long_tail"]
    && PositiveInteger(row.targetHistoryDays) && PositiveInteger(row.freshnessSloSeconds)
    && PositiveInteger(row.productionFreshnessSloSeconds) && PositiveInteger(row.priority)
  }

  /** What the planner relies on. */
  ghost predicate WellFormed(targets: seq<Target>) {
    && (forall i :: 0 <= i < |targets| ==>
          && targets[i].entityType == "coin" && targets[i].targetHistoryDays > 0
          && targets[i].freshnessSloSeconds > 0 && targets[i].productionFreshnessSloSeconds > 0)
    && (forall i, j :: 0 <= i < j < |targets| && targets[i].enabled && targets[j].enabled ==>
          TargetKey(targets[i]) != TargetKey(targets[j]))
  }

  /** The first n rows are acceptable and no two enabled ones among them have one key. */
  ghost predicate Acceptable(parsed: seq<Target>, rows: seq<ManifestRow>, n: nat)
    requires n <= |rows| == |parsed|
  {
    && (forall i :: 0 <= i < n ==> RowAccepted(rows[i], parsed[i]))
    && (forall i, j :: 0 <= i < j < n && rows[i].enabled && rows[j].enabled ==> TargetKey(parsed[i]) != TargetKey(parsed[j]))
  }

  ghost predicate KeysAre(keys: set<string>, parsed: seq<Target>, rows: seq<ManifestRow>, n: nat)
    requires n <= |rows| == |parsed|
  {
    && (forall i :: 0 <= i < n && rows[i].enabled ==> TargetKey(parsed[i]) in keys)
    && (forall k :: k in keys ==> exists i :: 0 <= i < n && rows[i].enabled && TargetKey(parsed[i]) == k)
  }

  function AllNormalized(rows: seq<ManifestRow>, normalize: string -> string, trim: string -> string): seq<Target> {
    Mapped(rows, row => Normalized(row, normalize, trim))
  }

  /** A manifest is parsed exactly when every row is acceptable and no two enabled rows have one key. */
  method ParseCoverageTargetManifest(
    version: int, rows: seq<ManifestRow>, normalize: string -> string, trim: string -> string)
    returns (parsed: Parsed)
    ensures parsed.Targets? <==> version == 1 && Acceptable(AllNormalized(rows, normalize, trim), rows, |rows|)
    ensures parsed.Targets? ==> parsed.targets == AllNormalized(rows, normalize, trim) && WellFormed(parsed.targets)
  {
    if version != 1 { return Rejected; }
    ghost var all := AllNormalized(rows, normalize, trim);
    var enabledKeys: set<string> := {};
    var targets := [];
    var n := 0;
    while n < |rows|
      invariant 0 <= n <= |rows| == |all| && targets == all[..n]
      invariant Acceptable(all, rows, n) && KeysAre(enabledKeys, all, rows, n)
    {
      hide RowAccepted, TargetKey, Normalized, Mapped, AllNormalized, Acceptable, KeysAre;
      var target := Normalized(rows[n], normalize, trim);
      NormalizedAt(rows, n, normalize, trim);
      NextRow(enabledKeys, all, rows, n);
      if !RowAccepted(rows[n], target) { return Rejected; }
      if rows[n].enabled {
        var key := TargetKey(target);
        if key in enabledKeys { return Rejected; }
        enabledKeys := enabledKeys + {key};
      }
      targets := targets + [target];
      n := n + 1;
    }
    assert all[..n] == all;
    AcceptedAreWellFormed(rows, normalize, trim);
    parsed := Targets(targets);
  }

  lemma NormalizedAt(rows: seq<ManifestRow>, n: nat, normalize: string -> string, trim: string -> string)
    requires n < |rows|
    ensures |AllNormalized(rows, normalize, trim)| == |rows|
    ensures AllNormalized(rows, normalize, trim)[n] == Normalized(rows[n], normalize, trim)
  {
  }

  lemma NextRow(keys: set<string>, parsed: seq<Target>, rows: seq<ManifestRow>, n: nat)
    requires n < |rows| == |parsed| && Acceptable(parsed, rows, n) && KeysAre(keys, parsed, rows, n)
    ensures var bad := !RowAccepted(rows[n], parsed[n]) || (rows[n].enabled && TargetKey(parsed[n]) in keys);
            && (bad ==> !Acceptable(parsed, rows, |rows|))
            && (!bad ==> Acceptable(parsed, rows, n + 1)
                         && KeysAre(if rows[n].enabled then keys + {TargetKey(parsed[n])} else keys, parsed, rows, n + 1))
  {
    hide RowAccepted, TargetKey;
    if rows[n].enabled && TargetKey(parsed[n]) in keys {
      var i :| 0 <= i < n && rows[i].enabled && TargetKey(parsed[i]) == TargetKey(parsed[n]);
    }
    var more := if rows[n].enabled then keys + {TargetKey(parsed[n])} else keys;
    forall k | k in more
      ensures exists i :: 0 <= i < n + 1 && rows[i].enabled && TargetKey(parsed[i]) == k
    {
      if k in keys {
        var i :| 0 <= i < n && rows[i].enabled && TargetKey(parsed[i]) == k;
      } else {
        assert rows[n].enabled && TargetKey(parsed[n]) == k;
      }
    }
  }

  lemma AcceptedAreWellFormed(rows: seq<ManifestRow>, normalize: string -> string, trim: string -> string)
    requires Acceptable(AllNormalized(rows, normalize, trim), rows, |rows|)
    ensures WellFormed(AllNormalized(rows, normalize, trim))
  {
    hide TargetKey;
    var targets := AllNormalized(rows, normalize, trim);
    forall i | 0 <= i < |targets|
      ensures targets[i].entityType == "coin" && targets[i].targetHistoryDays > 0
      ensures targets[i].freshnessSloSeconds > 0 && targets[i].productionFreshnessSloSeconds > 0
      ensures targets[i].enabled == rows[i].enabled
    {
      assert RowAccepted(rows[i], targets[i]);
    }
  }

  /** A target shows its row: each text normalized in its own column, each number as it is written. */
  ghost predicate Shows(row: ManifestRow, t: Target, normalize: string -> string, trim: string -> string) {
    && t.family == normalize(row.family) && t.provider == normalize(row.provider)
    && t.entityType == normalize(row.entityType) && t.entityId == normalize(row.entityId)
    && t.interval == normalize(row.interval) && t.vsCurrency == normalize(row.vsCurrency)
    && t.tier == trim(row.tier) && t.enabled == row.enabled
    && t.targetHistoryDays as real == row.targetHistoryDays && t.freshnessSloSeconds as real == row.freshnessSloSeconds
    && t.productionFreshnessSloSeconds as real == row.productionFreshnessSloSeconds && t.priority as real == row.priority
  }

  /** A target the planner can serve: named, of a supported kind, with positive numbers. */
  ghost predicate Supported(t: Target) {
    && |t.provider| > 0 && |t.entityId| > 0 && |t.vsCurrency| > 0 && t.entityType == "coin"
    && (t.family == "market_charts" || t.family == "ohlcv")
    && (t.interval == "1d" || t.interval == "1h" || t.interval == "1m")
    && (t.tier == "S" || t.tier == "A" || t.tier == "B" || t.tier == "long_tail")
    && t.targetHistoryDays >= 1 && t.freshnessSloSeconds >= 1 && t.productionFreshnessSloSeconds >= 1 && t.priority >= 1
  }

  /** A row is acceptable exactly when some supported target shows it, and that is the target it is parsed to. */
  lemma AcceptedIff(row: ManifestRow, t: Target, normalize: string -> string, trim: string -> string)
    ensures RowAccepted(row, Normalized(row, normalize, trim)) && t == Normalized(row, normalize, trim) <==>
            Shows(row, t, normalize, trim) && Supported(t)
  {
  }

  // ---------------------------------------------------------------- planning

  datatype Observed = Observed(
    family: string, provider: string, coinId: string, interval: string, vsCurrency: string,
    latestAt: Option<int>, oldestAt: Option<int>, sourceRowCount: int, gaps: seq<(int, int)>)

  datatype Reason = ProductionStale | Stale | Missing | Shallow | GapRepair

  datatype Task = Task(
    family: string, provider: string, coinId: string, interval: string, vsCurrency: string,
    from: int, to: int, reason: Reason, priority: int)

  function ObservedKey(o: Observed): string {
    KeyOf(o.family, o.provider, "coin", o.coinId, o.interval, o.vsCurrency)
  }

  function TaskKey(t: Task): string {
    KeyOf(t.family, t.provider, "coin", t.coinId, t.interval, t.vsCurrency)
  }

  function BuildTask(t: Target, from: int, to: int, reason: Reason): Task {
    Task(t.family, t.provider, t.entityId, t.interval, t.vsCurrency, from, to, reason, t.priority)
  }

  /** The next window towards the desired oldest instant, at most one chunk long. */
  function ShallowWindow(oldest: int, desired: int): Option<(int, int)> {
    if oldest > desired then
      var from := if desired > oldest - CHUNK_DAYS * DAY_MS then desired else oldest - CHUNK_DAYS * DAY_MS;
      Some((from, oldest))
    else None
  }

  function FreshnessTasks(t: Target, latest: int, now: int): seq<Task> {
    var age := if now - latest > 0 then now - latest else 0;
    if age > t.freshnessSloSeconds * 1000 then [BuildTask(t, latest, now, Stale)]
    else if age > t.productionFreshnessSloSeconds * 1000 then [BuildTask(t, latest, now, ProductionStale)]
    else []
  }

  function GapTasks(t: Target, gaps: seq<(int, int)>): seq<Task> {
    seq(|gaps|, i requires 0 <= i < |gaps| => BuildTask(t, gaps[i].0, gaps[i].1, GapRepair))
  }

  predicate Synced(o: Option<Observed>) {
    o.Some? && o.value.latestAt.Some? && o.value.oldestAt.Some? && o.value.sourceRowCount > 0
  }

  function DesiredOldest(t: Target, now: int): int { now - t.targetHistoryDays * DAY_MS }

  function TasksFor(t: Target, o: Option<Observed>, now: int): seq<Task> {
    if !Synced(o) then
      var days := if t.targetHistoryDays < FIRST_SYNC_WINDOW_DAYS then t.targetHistoryDays else FIRST_SYNC_WINDOW_DAYS;
      [BuildTask(t, now - days * DAY_MS, now, Missing)]
    else
      var window := ShallowWindow(o.value.oldestAt.value, DesiredOldest(t, now));
      FreshnessTasks(t, o.value.latestAt.value, now)
      + (if window.Some? then [BuildTask(t, window.value.0, window.value.1, Shallow)] else [])
      + GapTasks(t, o.value.gaps)
  }

  /** new Map(rows.map(...)): the last row with a key wins. */
  function LastObserved(observed: seq<Observed>, key: string): Option<Observed> {
    if observed == [] then None
    else if ObservedKey(observed[|observed| - 1]) == key then Some(observed[|observed| - 1])
    else LastObserved(observed[..|observed| - 1], key)
  }

  function LastEnabled(targets: seq<Target>, key: string): Option<Target> {
    if targets == [] then None
    else
      var last := targets[|targets| - 1];
      if last.enabled && TargetKey(last) == key then Some(last) else LastEnabled(targets[..|targets| - 1], key)
  }

  function Unsorted(targets: seq<Target>, observed: seq<Observed>, now: int): seq<Task> {
    if targets == [] then []
    else
      var last := targets[|targets| - 1];
      Unsorted(targets[..|targets| - 1], observed, now)
      + (if last.enabled then TasksFor(last, LastObserved(observed, TargetKey(last)), now) else [])
  }

  // ---------------------------------------------------------------- the order of the tasks

  function TierRank(tier: string): real {
    if tier == "S" then 0.0 else if tier == "A" then 1.0 else if tier == "B" then 2.0 else 3.0
  }

  function ReasonRank(reason: Reason): real {
    match reason
    case ProductionStale => 0.0
    case Stale => 1.0
    case Missing => 2.0
    case Shallow => 3.0
    case GapRepair => 4.0
  }

  function TierOf(targets: seq<Target>, task: Task): string {
    var t := LastEnabled(targets, TaskKey(task));
    if t.Some? then t.value.tier else "long_tail"
  }

  /** What the comparator looks at, most significant first; text as localeCompare ranks it. */
  function SortKey(targets: seq<Target>, rank: string -> real, task: Task): seq<real> {
    [TierRank(TierOf(targets, task)), ReasonRank(task.reason), task.priority as real, rank(task.family),
     rank(task.provider), rank(task.coinId), rank(task.interval), rank(task.vsCurrency)]
  }

  function TaskOrder(targets: seq<Target>, rank: string -> real): (Task, Task) -> bool {
    (s, t) => LexLeq(SortKey(targets, rank, s), SortKey(targets, rank, t))
  }

  lemma TaskOrderIsPreorder(targets: seq<Target>, rank: string -> real)
    ensures TotalPreorder(TaskOrder(targets, rank))
  {
    hide SortKey, LexLeq;
    forall s, t
      ensures TaskOrder(targets, rank)(s, t) || TaskOrder(targets, rank)(t, s)
    {
      LexTotal(SortKey(targets, rank, s), SortKey(targets, rank, t));
    }
    forall s, t, u | TaskOrder(targets, rank)(s, t) && TaskOrder(targets, rank)(t, u)
      ensures TaskOrder(targets, rank)(s, u)
    {
      LexTransitive(SortKey(targets, rank, s), SortKey(targets, rank, t), SortKey(targets, rank, u));
    }
  }

  function Plan(targets: seq<Target>, observed: seq<Observed>, now: int, rank: string -> real): seq<Task> {
    SortBy(Unsorted(targets, observed, now), TaskOrder(targets, rank))
  }

  method PlanHistoryBackfillTasks(targets: seq<Target>, observed: seq<Observed>, now: int, rank: string -> real)
    returns (tasks: seq<Task>)
    ensures tasks == Plan(targets, observed, now, rank)
    ensures Ordered(tasks, TaskOrder(targets, rank))
    ensures multiset(tasks) == multiset(Unsorted(targets, observed, now))
  {
    tasks := [];
    var n := 0;
    assert targets[..0] == [];
    while n < |targets|
      invariant 0 <= n <= |targets|
      invariant tasks == Unsorted(targets[..n], observed, now)
    {
      assert targets[..n + 1][..n] == targets[..n];
      var target := targets[n];
      if target.enabled {
        var mine := PlanTarget(target, LastObserved(observed, TargetKey(target)), now);
        tasks := tasks + mine;
      }
      n := n + 1;
    }
    assert targets[..n] == targets;
    TaskOrderIsPreorder(targets, rank);
    SortByIs(tasks, TaskOrder(targets, rank));
    tasks := SortBy(tasks, TaskOrder(targets, rank));
  }

  method PlanTarget(target: Target, state: Option<Observed>, now: int) returns (tasks: seq<Task>)
    ensures tasks == TasksFor(target, state, now)
  {
    if !Synced(state) {
      var days := FIRST_SYNC_WINDOW_DAYS;
      if target.targetHistoryDays < days { days := target.targetHistoryDays; }
      return [BuildTask(target, now - days * DAY_MS, now, Missing)];
    }
    tasks := FreshnessTasks(target, state.value.latestAt.value, now);
    var window := ShallowWindow(state.value.oldestAt.value, DesiredOldest(target, now));
    if window.Some? {
      tasks := tasks + [BuildTask(target, window.value.0, window.value.1, Shallow)];
    }
    var gaps, start := state.value.gaps, tasks;
    var n := 0;
    while n < |gaps|
      invariant 0 <= n <= |gaps|
      invariant tasks == start + GapTasks(target, gaps[..n])
    {
      tasks := tasks + [BuildTask(target, gaps[n].0, gaps[n].1, GapRepair)];
      n := n + 1;
    }
    assert gaps[..n] == gaps;
  }

  // ---------------------------------------------------------------- every task finds its own target

  lemma {:induction false} LastEnabledIsOwn(targets: seq<Target>, i: nat)
    requires WellFormed(targets) && i < |targets| && targets[i].enabled
    ensures LastEnabled(targets, TargetKey(targets[i])) == Some(targets[i])
  {
    hide TargetKey;
    var last := |targets| - 1;
    if i < last {
      LastEnabledIsOwn(targets[..last], i);
    }
  }

  lemma TasksForKeys(t: Target, o: Option<Observed>, now: int, task: Task)
    requires t.entityType == "coin" && task in TasksFor(t, o, now)
    ensures TaskKey(task) == TargetKey(t) && task.priority == t.priority
  {
    hide KeyOf;
  }

  lemma {:induction false} TaskHasTarget(targets: seq<Target>, observed: seq<Observed>, now: int, task: Task)
    returns (i: nat)
    requires task in Unsorted(targets, observed, now)
    ensures i < |targets| && targets[i].enabled
    ensures task in TasksFor(targets[i], LastObserved(observed, TargetKey(targets[i])), now)
  {
    hide TasksFor, LastObserved, TargetKey;
    var shorter, last := targets[..|targets| - 1], targets[|targets| - 1];
    if task in Unsorted(shorter, observed, now) {
      i := TaskHasTarget(shorter, observed, now, task);
    } else {
      i := |targets| - 1;
    }
  }

  function OwnTasks(t: Target, observed: seq<Observed>, now: int): seq<Task> {
    if t.enabled then TasksFor(t, LastObserved(observed, TargetKey(t)), now) else []
  }

  /** How often a task is among those of the enabled targets. */
  ghost function OwedTimes(targets: seq<Target>, observed: seq<Observed>, now: int, task: Task): nat {
    if targets == [] then 0
    else multiset(OwnTasks(targets[0], observed, now))[task] + OwedTimes(targets[1..], observed, now, task)
  }

  lemma {:induction false} OwedTimesNext(targets: seq<Target>, last: Target, observed: seq<Observed>, now: int, task: Task)
    ensures OwedTimes(targets + [last], observed, now, task) ==
            OwedTimes(targets, observed, now, task) + multiset(OwnTasks(last, observed, now))[task]
  {
    hide OwnTasks;
    if targets == [] {
      assert [] + [last] == [last] && [last][1..] == [];
    } else {
      assert (targets + [last])[1..] == targets[1..] + [last];
      OwedTimesNext(targets[1..], last, observed, now, task);
    }
  }

  lemma UnsortedNext(targets: seq<Target>, observed: seq<Observed>, now: int)
    requires targets != []
    ensures var n := |targets| - 1;
            targets == targets[..n] + [targets[n]]
            && Unsorted(targets, observed, now) == Unsorted(targets[..n], observed, now) + OwnTasks(targets[n], observed, now)
  {
    hide TasksFor, LastObserved, TargetKey;
  }

  lemma OccurrencesAdd(s: seq<Task>, t: seq<Task>, task: Task)
    ensures multiset(s + t)[task] == multiset(s)[task] + multiset(t)[task]
  {
  }

  lemma {:induction false} UnsortedCounts(targets: seq<Target>, observed: seq<Observed>, now: int, task: Task)
    ensures multiset(Unsorted(targets, observed, now))[task] == OwedTimes(targets, observed, now, task)
  {
    if targets != [] {
      hide OwnTasks, Unsorted, OwedTimes;
      var n := |targets| - 1;
      UnsortedCounts(targets[..n], observed, now, task);
      OwedTimesNext(targets[..n], targets[n], observed, now, task);
      UnsortedNext(targets, observed, now);
      OccurrencesAdd(Unsorted(targets[..n], observed, now), OwnTasks(targets[n], observed, now), task);
    }
  }

  /** A task is planned as often as the enabled targets ask for it, and no other is. */
  lemma PlanCounts(targets: seq<Target>, observed: seq<Observed>, now: int, rank: string -> real, task: Task)
    ensures multiset(Plan(targets, observed, now, rank))[task] == OwedTimes(targets, observed, now, task)
  {
    hide OwedTimes, Unsorted, SortBy, TaskOrder;
    UnsortedCounts(targets, observed, now, task);
    TaskOrderIsPreorder(targets, rank);
    SortByIs(Unsorted(targets, observed, now), TaskOrder(targets, rank));
  }

  /** With targets from a parsed manifest, a planned task is ranked by the tier of the target it was planned for. */
  lemma TaskFindsOwnTarget(
    targets: seq<Target>, observed: seq<Observed>, now: int, rank: string -> real, task: Task)
    returns (i: nat)
    requires WellFormed(targets) && task in Plan(targets, observed, now, rank)
    ensures i < |targets| && targets[i].enabled
    ensures task in TasksFor(targets[i], LastObserved(observed, TargetKey(targets[i])), now)
    ensures TierOf(targets, task) == targets[i].tier && TaskKey(task) == TargetKey(targets[i])
  {
    SortByMembers(Unsorted(targets, observed, now), TaskOrder(targets, rank), task);
    i := TaskHasTarget(targets, observed, now, task);
    TasksForKeys(targets[i], LastObserved(observed, TargetKey(targets[i])), now, task);
    LastEnabledIsOwn(targets, i);
  }

  /** What a planned task says about its target: why it is there and what its window is. */
  ghost predicate Justified(t: Target, o: Option<Observed>, now: int, task: Task) {
    match task.reason
    case Missing =>
      !Synced(o) && task.to == now && now - task.from <= FIRST_SYNC_WINDOW_DAYS * DAY_MS && DesiredOldest(t, now) <= task.from
    case Stale =>
      Synced(o) && task.from == o.value.latestAt.value && task.to == now && task.to - task.from > t.freshnessSloSeconds * 1000
    case ProductionStale =>
      && Synced(o) && task.from == o.value.latestAt.value && task.to == now
      && t.productionFreshnessSloSeconds * 1000 < task.to - task.from <= t.freshnessSloSeconds * 1000
    case Shallow =>
      && Synced(o) && task.to == o.value.oldestAt.value && DesiredOldest(t, now) <= task.from
      && 0 < task.to - task.from <= CHUNK_DAYS * DAY_MS
    case GapRepair => Synced(o) && (task.from, task.to) in o.value.gaps
  }

  /** Every task is justified, and its window is not empty unless a reported gap was. */
  lemma TasksAreJustified(t: Target, o: Option<Observed>, now: int, task: Task)
    requires t.targetHistoryDays > 0 && t.freshnessSloSeconds > 0 && t.productionFreshnessSloSeconds > 0
    requires task in TasksFor(t, o, now)
    ensures Justified(t, o, now, task)
    ensures task.reason != GapRepair ==> task.from < task.to
  {
    if Synced(o) {
      if task in GapTasks(t, o.value.gaps) {
        var i :| 0 <= i < |o.value.gaps| && GapTasks(t, o.value.gaps)[i] == task;
        assert o.value.gaps[i] == (task.from, task.to);
      } else {
        hide GapTasks;
        assert task in FreshnessTasks(t, o.value.latestAt.value, now) || task.reason == Shallow;
      }
    }
  }

  /** Data is held for the target, from an oldest to a latest instant. */
  ghost predicate Holds(o: Option<Observed>, oldest: int, latest: int) {
    o.Some? && o.value.oldestAt == Some(oldest) && o.value.latestAt == Some(latest) && o.value.sourceRowCount >= 1
  }

  ghost predicate HoldsNothing(o: Option<Observed>) {
    o.None? || o.value.oldestAt.None? || o.value.latestAt.None? || o.value.sourceRowCount < 1
  }

  /** The windows a target is owed, in milliseconds, each for its own reason. */
  ghost predicate Owed(t: Target, o: Option<Observed>, now: int, from: int, to: int, reason: Reason) {
    match reason
    case Missing =>
      HoldsNothing(o) && to == now && (if t.targetHistoryDays <= 30 then to - from == t.targetHistoryDays * 86_400_000
                                       else to - from == 30 * 86_400_000)
    case Stale =>
      exists oldest :: Holds(o, oldest, from) && to == now && to - from > 1000 * t.freshnessSloSeconds
    case ProductionStale =>
      exists oldest :: Holds(o, oldest, from) && to == now
                       && to - from <= 1000 * t.freshnessSloSeconds && to - from > 1000 * t.productionFreshnessSloSeconds
    case Shallow =>
      exists latest :: Holds(o, to, latest) && from < to
                       && (if now - to >= (t.targetHistoryDays - 180) * 86_400_000 then now - from == t.targetHistoryDays * 86_400_000
                           else to - from == 180 * 86_400_000)
    case GapRepair =>
      exists oldest, latest :: Holds(o, oldest, latest) && (from, to) in o.value.gaps
  }

  /** The tasks of a target are what it is owed, all of it and nothing else, under its own name and priority. */
  lemma TaskIff(t: Target, o: Option<Observed>, now: int, task: Task)
    requires t.freshnessSloSeconds > 0 && t.productionFreshnessSloSeconds > 0
    ensures task in TasksFor(t, o, now) <==>
            && task.family == t.family && task.provider == t.provider && task.coinId == t.entityId
            && task.interval == t.interval && task.vsCurrency == t.vsCurrency && task.priority == t.priority
            && Owed(t, o, now, task.from, task.to, task.reason)
  {
    if Synced(o) {
      var oldest, latest := o.value.oldestAt.value, o.value.latestAt.value;
      assert Holds(o, oldest, latest);
      GapTaskIff(t, o.value.gaps, task);
      hide GapTasks;
      assert task in TasksFor(t, o, now) <==>
        || task in FreshnessTasks(t, latest, now)
        || (ShallowWindow(oldest, DesiredOldest(t, now)).Some?
            && task == BuildTask(t, ShallowWindow(oldest, DesiredOldest(t, now)).value.0, oldest, Shallow))
        || task in GapTasks(t, o.value.gaps);
      hide TasksFor;
    }
  }

  lemma GapTaskIff(t: Target, gaps: seq<(int, int)>, task: Task)
    ensures task in GapTasks(t, gaps) <==> (task.from, task.to) in gaps && task == BuildTask(t, task.from, task.to, GapRepair)
  {
    if (task.from, task.to) in gaps && task == BuildTask(t, task.from, task.to, GapRepair) {
      var i :| 0 <= i < |gaps| && gaps[i] == (task.from, task.to);
      assert GapTasks(t, gaps)[i] == task;
    }
  }

  /** The keys as text; a row about a coin and a target for it have one key. */
  lemma KeysAreSpelled(t: Target, o: Observed)
    ensures TargetKey(t) == t.family + ":" + t.provider + ":" + t.entityType + ":" + t.entityId + ":" + t.interval + ":" + t.vsCurrency
    ensures ObservedKey(o) == o.family + ":" + o.provider + ":" + "coin" + ":" + o.coinId + ":" + o.interval + ":" + o.vsCurrency
  {
    KeyIsSpelled(t.family, t.provider, t.entityType, t.entityId, t.interval, t.vsCurrency);
    KeyIsSpelled(o.family, o.provider, "coin", o.coinId, o.interval, o.vsCurrency);
    hide KeyOf;
  }

  lemma KeyIsSpelled(a: string, b: string, c: string, d: string, e: string, f: string)
    ensures KeyOf(a, b, c, d, e, f) == a + ":" + b + ":" + c + ":" + d + ":" + e + ":" + f
  {
    assert Joined([a], ":") == a;
    assert [a, b][..1] == [a];
    assert Joined([a, b], ":") == a + ":" + b;
    assert [a, b, c][..2] == [a, b];
    assert Joined([a, b, c], ":") == a + ":" + b + ":" + c;
    assert [a, b, c, d][..3] == [a, b, c];
    assert Joined([a, b, c, d], ":") == a + ":" + b + ":" + c + ":" + d;
    assert [a, b, c, d, e][..4] == [a, b, c, d];
    assert Joined([a, b, c, d, e], ":") == a + ":" + b + ":" + c + ":" + d + ":" + e;
    assert [a, b, c, d, e, f][..5] == [a, b, c, d, e];
  }

  /** What is known of a key is the last row observed for it. */
  lemma {:induction false} ObservedIs(observed: seq<Observed>, key: string)
    ensures var o := LastObserved(observed, key);
            && (o.None? <==> forall i :: 0 <= i < |observed| ==> ObservedKey(observed[i]) != key)
            && (o.Some? ==> exists i :: 0 <= i < |observed| && observed[i] == o.value && ObservedKey(o.value) == key
                                        && forall j :: i < j < |observed| ==> ObservedKey(observed[j]) != key)
  {
    hide ObservedKey;
    if observed != [] {
      var n := |observed| - 1;
      ObservedIs(observed[..n], key);
      if LastObserved(observed, key).Some? && ObservedKey(observed[n]) != key {
        var i :| 0 <= i < n && observed[..n][i] == LastObserved(observed, key).value
                 && forall j :: i < j < n ==> ObservedKey(observed[..n][j]) != key;
        assert forall j :: i < j < n ==> observed[..n][j] == observed[j];
      }
    }
  }

  /** Tiers and reasons from the most to the least urgent. */
  lemma RanksAre(i: nat)
    requires i < 5
    ensures i < 4 ==> TierRank(["S", "A", "B", "long_tail"][i]) == i as real
    ensures ReasonRank([ProductionStale, Stale, Missing, Shallow, GapRepair][i]) == i as real
  {
  }

  /** The plan's order: by tier, then by reason, then by priority, then by names. */
  lemma OrderIs(targets: seq<Target>, rank: string -> real, s: Task, t: Task)
    ensures TaskOrder(targets, rank)(s, t) <==>
            var (a, b) := (TierRank(TierOf(targets, s)), TierRank(TierOf(targets, t)));
            if a != b then a < b
            else if s.reason != t.reason then ReasonRank(s.reason) < ReasonRank(t.reason)
            else if s.priority != t.priority then s.priority < t.priority
            else if rank(s.family) != rank(t.family) then rank(s.family) < rank(t.family)
            else if rank(s.provider) != rank(t.provider) then rank(s.provider) < rank(t.provider)
            else if rank(s.coinId) != rank(t.coinId) then rank(s.coinId) < rank(t.coinId)
            else if rank(s.interval) != rank(t.interval) then rank(s.interval) < rank(t.interval)
            else rank(s.vsCurrency) <= rank(t.vsCurrency)
  {
    var a, b := SortKey(targets, rank, s), SortKey(targets, rank, t);
    LexEight(a, b);
    hide TierOf, TierRank, LexLeq;
  }

  lemma LexEight(a: seq<real>, b: seq<real>)
    requires |a| == |b| == 8
    ensures LexLeq(a, b) <==>
            if a[0] != b[0] then a[0] < b[0] else if a[1] != b[1] then a[1] < b[1] else if a[2] != b[2] then a[2] < b[2]
            else if a[3] != b[3] then a[3] < b[3] else if a[4] != b[4] then a[4] < b[4] else if a[5] != b[5] then a[5] < b[5]
            else if a[6] != b[6] then a[6] < b[6] else a[7] <= b[7]
  {
    hide LexLeq;
    LexFrom(a, b, 8);
    LexFrom(a, b, 7);
    LexFrom(a, b, 6);
    assert LexLeq(a[6..], b[6..]) <==> if a[6] != b[6] then a[6] < b[6] else a[7] <= b[7];
    LexFrom(a, b, 5);
    LexFrom(a, b, 4);
    LexFrom(a, b, 3);
    LexFrom(a, b, 2);
    LexFrom(a, b, 1);
    LexFrom(a, b, 0);
    assert a[0..] == a && b[0..] == b;
  }

  // ---------------------------------------------------------------- shallow rounds

  /** The windows of successive rounds, each executed in full: the oldest instant moves to the window's start. */
  function Rounds(oldest: int, desired: int): seq<(int, int)>
    decreases if oldest > desired then oldest - desired else 0
  {
    var window := ShallowWindow(oldest, desired);
    if window.None? then [] else [window.value] + Rounds(window.value.0, desired)
  }

  /** The number of windows an instant falls into. */
  function Covers(windows: seq<(int, int)>, t: int): nat {
    if windows == [] then 0
    else (if windows[0].0 <= t < windows[0].1 then 1 else 0) + Covers(windows[1..], t)
  }

  /** Windows are at most a chunk long and the rounds cover each instant still wanted exactly once, and no other. */
  lemma {:induction false} RoundsTile(oldest: int, desired: int, t: int)
    ensures Covers(Rounds(oldest, desired), t) == if desired <= t < oldest then 1 else 0
    ensures forall i :: 0 <= i < |Rounds(oldest, desired)| ==>
              var w := Rounds(oldest, desired)[i]; 0 < w.1 - w.0 <= CHUNK_DAYS * DAY_MS
    decreases if oldest > desired then oldest - desired else 0
  {
    var window := ShallowWindow(oldest, desired);
    if window.Some? { RoundsTile(window.value.0, desired, t); }
  }

  lemma {:induction false} RoundsAbut(oldest: int, desired: int)
    ensures var rounds := Rounds(oldest, desired);
            && (rounds != [] ==> rounds[0].1 == oldest && rounds[|rounds| - 1].0 == desired)
            && forall i :: 0 < i < |rounds| ==> rounds[i].1 == rounds[i - 1].0
    decreases if oldest > desired then oldest - desired else 0
  {
    var window := ShallowWindow(oldest, desired);
    if window.Some? { RoundsAbut(window.value.0, desired); }
  }

  /** The shortfall is gone after its length in chunks, rounded up. */
  lemma {:induction false} RoundsVanish(oldest: int, desired: int)
    ensures var rounds, chunk := Rounds(oldest, desired), CHUNK_DAYS * DAY_MS;
            if oldest <= desired then rounds == []
            else (|rounds| - 1) * chunk < oldest - desired <= |rounds| * chunk
    decreases if oldest > desired then oldest - desired else 0
  {
    var window := ShallowWindow(oldest, desired);
    if window.Some? { RoundsVanish(window.value.0, desired); }
  }

  /** A synced target gets a shallow task exactly when history is missing, and it is the first of its rounds. */
  lemma ShallowTaskIsFirstRound(t: Target, o: Option<Observed>, now: int)
    requires Synced(o)
    ensures var rounds := Rounds(o.value.oldestAt.value, DesiredOldest(t, now));
            forall task :: task in TasksFor(t, o, now) && task.reason == Shallow <==>
              rounds != [] && task == BuildTask(t, rounds[0].0, rounds[0].1, Shallow)
  {
    var oldest, desired := o.value.oldestAt.value, DesiredOldest(t, now);
    var window := ShallowWindow(oldest, desired);
    assert Rounds(oldest, desired) == if window.None? then [] else [window.value] + Rounds(window.value.0, desired);
    var shallow := if window.Some? then [BuildTask(t, window.value.0, window.value.1, Shallow)] else [];
    hide ShallowWindow, BuildTask;
    forall task
      ensures task in TasksFor(t, o, now) && task.reason == Shallow <==> task in shallow
    {
      ReasonsApart(t, o.value.latestAt.value, now, o.value.gaps, task);
      if window.Some? { BuiltReason(t, window.value.0, window.value.1, Shallow); }
      hide FreshnessTasks, GapTasks;
    }
  }

  lemma BuiltReason(t: Target, from: int, to: int, reason: Reason)
    ensures BuildTask(t, from, to, reason).reason == reason
  {
  }

  lemma ReasonsApart(t: Target, latest: int, now: int, gaps: seq<(int, int)>, task: Task)
    ensures task in FreshnessTasks(t, latest, now) ==> task.reason == Stale || task.reason == ProductionStale
    ensures task in GapTasks(t, gaps) ==> task.reason == GapRepair
  {
  }
}
