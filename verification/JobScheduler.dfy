/**
 * The unified job scheduler (src/services/job-scheduler.ts): one state machine per job, driven by
 * timer ticks, runNow, settling runners, start and stop, in any order. Times are integer
 * milliseconds read off the scheduler's clock and passed in; intervals are seconds, possibly
 * fractional. A runner neither throws synchronously nor calls runNow on its own job before its
 * first await, so a run is in flight before anything else can happen.
 */
module JobScheduler {
  import opened Common

  datatype Definition = Definition(
    name: string, intervalSeconds: real, staleAfterSeconds: Option<real>, disabled: bool, runImmediately: bool)

  datatype SkipReason = Running | Backoff | Disabled | Stopped

  /** What a runner resolved with; a runner that resolved with nothing gives None, None, []. */
  datatype RunResult = RunResult(
    rowsWritten: Option<int>, rowsPruned: Option<int>, partialFailures: seq<(string, string)>)

  datatype Job = Job(
    definition: Definition,
    timer: bool,
    inFlight: bool,
    inFlightStartedAt: Option<int>,
    inFlightHeartbeatAt: Option<int>,
    lastRunAt: Option<int>,
    lastSuccessAt: Option<int>,
    lastFailureAt: Option<int>,
    lastDurationMs: Option<int>,
    lastError: Option<string>,
    errorCount: nat,
    runCount: nat,
    successCount: nat,
    skippedCount: nat,
    rowsWritten: Option<int>,
    rowsPruned: Option<int>,
    partialFailures: seq<(string, string)>,
    nextEligibleAt: Option<int>,
    lastSkipReason: Option<SkipReason>,
    stopped: bool)

  function Registered(d: Definition): Job {
    Job(d, false, false, None, None, None, None, None, None, None, 0, 0, 0, 0, None, None, [], None, None, false)
  }

  // ---------------------------------------------------------------- backoff

  function Smaller(a: real, b: real): real { if a <= b then a else b }

  function Greatest(a: real, b: real): real { if a >= b then a else b }

  /** Math.round: halves go up. */
  function Round(x: real): int { (x + 0.5).Floor }

  /** base * 2 ** n */
  function Doubled(base: real, n: nat): real {
    if n == 0 then base else 2.0 * Doubled(base, n - 1)
  }

  const BACKOFF_CAP_MS := 300_000.0

  function BaseMs(intervalSeconds: real): real {
    Greatest(1000.0, Smaller(intervalSeconds * 1000.0, 30_000.0))
  }

  /** The delay before jitter after the errorCount-th failure in a row. */
  function NominalMs(intervalSeconds: real, errorCount: nat): real {
    Smaller(Doubled(BaseMs(intervalSeconds), if errorCount == 0 then 0 else errorCount - 1), BACKOFF_CAP_MS)
  }

  /** 0.8 + Math.random() * 0.4 */
  type Jitter = j: real | 0.8 <= j < 1.2 witness 1.0

  function Jittered(delay: real, jitter: real): real { delay * jitter }

  function BackoffMs(intervalSeconds: real, errorCount: nat, jitter: Jitter): int {
    Round(Jittered(NominalMs(intervalSeconds, errorCount), jitter))
  }

  function MinBackoffMs(intervalSeconds: real, errorCount: nat): int {
    Round(Jittered(NominalMs(intervalSeconds, errorCount), 0.8))
  }

  lemma {:induction false} DoublingGrows(base: real, m: nat, n: nat)
    requires base >= 0.0 && m <= n
    ensures base <= Doubled(base, m) <= Doubled(base, n)
    decreases n
  {
    if m < n {
      DoublingGrows(base, m, n - 1);
    } else if n > 0 {
      DoublingGrows(base, m - 1, n - 1);
    }
  }

  lemma ScaleUp(x: real, a: real, b: real)
    requires x >= 0.0 && a <= b
    ensures x * a <= x * b
  {
  }

  lemma NominalBounds(intervalSeconds: real, errorCount: nat)
    ensures 1000.0 <= NominalMs(intervalSeconds, errorCount) <= BACKOFF_CAP_MS
  {
    DoublingGrows(BaseMs(intervalSeconds), 0, if errorCount == 0 then 0 else errorCount - 1);
  }

  lemma RoundMonotone(x: real, y: real)
    requires x <= y
    ensures Round(x) <= Round(y)
  {
  }

  lemma RoundWhole(k: int)
    ensures Round(k as real) == k
  {
  }

  /** Every delay is between 0.8 and 360 seconds, and never below the smallest jitter's delay. */
  lemma BackoffBounds(intervalSeconds: real, errorCount: nat, jitter: Jitter)
    ensures 800 <= BackoffMs(intervalSeconds, errorCount, jitter) <= 360_000
    ensures MinBackoffMs(intervalSeconds, errorCount) <= BackoffMs(intervalSeconds, errorCount, jitter)
  {
    NominalBounds(intervalSeconds, errorCount);
    var x := NominalMs(intervalSeconds, errorCount);
    hide NominalMs;
    ScaleUp(x, 0.8, jitter);
    ScaleUp(x, jitter, 1.2);
    assert x * jitter <= 360_000.0;
    RoundMonotone(x * 0.8, x * jitter);
    RoundMonotone(x * jitter, 360_000.0);
    RoundWhole(360_000);
  }

  lemma EightDoublings(base: real)
    ensures Doubled(base, 8) == 256.0 * base
  {
    assert Doubled(base, 1) == 2.0 * base;
    assert Doubled(base, 3) == 8.0 * base;
    assert Doubled(base, 5) == 32.0 * base;
    assert Doubled(base, 7) == 128.0 * base;
  }

  /** From the tenth failure on the delay before jitter is five minutes, whatever the interval ... */
  lemma BackoffSaturates(intervalSeconds: real, errorCount: nat)
    requires errorCount >= 10
    ensures NominalMs(intervalSeconds, errorCount) == BACKOFF_CAP_MS
  {
    var base := BaseMs(intervalSeconds);
    DoublingGrows(base, 9, errorCount - 1);
    EightDoublings(base);
    assert Doubled(base, 9) == 2.0 * Doubled(base, 8);
  }

  /** ... and the ninth is too early for the shortest intervals. */
  lemma NinthDoesNotSaturate(intervalSeconds: real)
    requires intervalSeconds <= 1.0
    ensures NominalMs(intervalSeconds, 9) == 256_000.0
  {
    EightDoublings(BaseMs(intervalSeconds));
  }

  lemma {:induction false} WholeThousands(thousands: int, n: nat) returns (k: int)
    ensures Doubled(1000.0 * thousands as real, n) == 1000.0 * k as real
  {
    if n == 0 {
      k := thousands;
    } else {
      var half := WholeThousands(thousands, n - 1);
      k := 2 * half;
    }
  }

  function PowerOfTwo(n: nat): int {
    if n == 0 then 1 else PowerOfTwo(n - 1) + PowerOfTwo(n - 1)
  }

  /** The interval in milliseconds, at least one second and at most thirty. */
  function Clamped(intervalSeconds: real): real {
    if intervalSeconds < 1.0 then 1000.0 else if intervalSeconds > 30.0 then 30000.0 else 1000.0 * intervalSeconds
  }

  /** The delay the n-th failure in a row asks for: the clamped interval times 2 ** (n - 1), at most five minutes. */
  function BackoffLaw(intervalSeconds: real, n: nat): real {
    var grown := Times(Clamped(intervalSeconds), PowerOfTwo(if n == 0 then 0 else n - 1));
    if grown < 300000.0 then grown else 300000.0
  }

  function Times(x: real, k: int): real { x * k as real }

  lemma TimesAdds(x: real, k: int)
    ensures Times(x, 1) == x && Times(x, k + k) == 2.0 * Times(x, k)
  {
    assert (k + k) as real == k as real + k as real;
    assert x * (k as real + k as real) == x * k as real + x * k as real;
  }

  lemma {:induction false} DoubledIsPower(base: real, n: nat)
    ensures Doubled(base, n) == Times(base, PowerOfTwo(n))
  {
    hide Times;
    if n == 0 {
      TimesAdds(base, 1);
    } else {
      DoubledIsPower(base, n - 1);
      TimesAdds(base, PowerOfTwo(n - 1));
    }
  }

  lemma BaseIsClamped(intervalSeconds: real)
    ensures BaseMs(intervalSeconds) == Clamped(intervalSeconds)
  {
  }

  /** The delay before jitter follows that law. */
  lemma NominalFollowsLaw(intervalSeconds: real, n: nat)
    ensures NominalMs(intervalSeconds, n) == BackoffLaw(intervalSeconds, n)
  {
    hide Doubled, BaseMs, Clamped, PowerOfTwo, Times;
    DoubledIsPower(BaseMs(intervalSeconds), if n == 0 then 0 else n - 1);
    BaseIsClamped(intervalSeconds);
  }

  /** The law's delay with its jitter, in whole milliseconds. */
  function LawMs(intervalSeconds: real, n: nat, jitter: real): int {
    Round(Jittered(BackoffLaw(intervalSeconds, n), jitter))
  }

  /** Every delay is the law's, between 0.8 and 1.2 times it up to half a millisecond. */
  lemma DelayFollowsLaw(intervalSeconds: real, n: nat, jitter: Jitter)
    ensures var x, delay := BackoffLaw(intervalSeconds, n), BackoffMs(intervalSeconds, n, jitter);
            && delay == LawMs(intervalSeconds, n, jitter)
            && Round(0.8 * x) <= delay <= Round(1.2 * x)
            && 0.8 * x - 0.5 <= delay as real <= 1.2 * x + 0.5
  {
    hide NominalMs, BackoffLaw, Round, Jittered;
    NominalFollowsLaw(intervalSeconds, n);
    NominalBounds(intervalSeconds, n);
    var x := BackoffLaw(intervalSeconds, n);
    JitteredBetween(x, jitter);
    RoundMonotone(0.8 * x, Jittered(x, jitter));
    RoundMonotone(Jittered(x, jitter), 1.2 * x);
    RoundKeepsIff(Jittered(x, jitter));
  }

  lemma DelayIsLaw(intervalSeconds: real, n: nat, jitter: Jitter)
    ensures BackoffMs(intervalSeconds, n, jitter) == LawMs(intervalSeconds, n, jitter)
  {
    DelayFollowsLaw(intervalSeconds, n, jitter);
  }

  lemma JitteredBetween(x: real, jitter: Jitter)
    requires x >= 0.0
    ensures 0.8 * x <= Jittered(x, jitter) <= 1.2 * x
  {
    ScaleUp(x, 0.8, jitter);
    ScaleUp(x, jitter, 1.2);
  }

  /** The least delay of the n-th failure in a row, before rounding to a millisecond. */
  function LeastDelay(intervalSeconds: real, n: nat): real {
    0.8 * BackoffLaw(intervalSeconds, n)
  }

  lemma FloorIs(y: real, n: int)
    requires n as real <= y < n as real + 1.0
    ensures y.Floor == n
  {
  }

  /** Rounding keeps a number exactly when nothing is dropped below it: no fraction, or one of at least a half. */
  lemma RoundKeepsIff(x: real)
    ensures Round(x) as real >= x <==> x == x.Floor as real || x - x.Floor as real >= 0.5
    ensures x - 0.5 <= Round(x) as real <= x + 0.5
  {
    var n := x.Floor;
    if x - n as real >= 0.5 {
      FloorIs(x + 0.5, n + 1);
    } else {
      FloorIs(x + 0.5, n);
    }
  }

  /** When rounding takes something off the smallest delay, and that it never takes more than half a millisecond. */
  lemma MinBackoffKeepsIff(intervalSeconds: real, n: nat)
    ensures var x := LeastDelay(intervalSeconds, n);
            && (MinBackoffMs(intervalSeconds, n) as real >= x <==> x == x.Floor as real || x - x.Floor as real >= 0.5)
            && x - 0.5 <= MinBackoffMs(intervalSeconds, n) as real <= x + 0.5
  {
    NominalFollowsLaw(intervalSeconds, n);
    hide NominalMs, BackoffLaw, Round;
    RoundKeepsIff(LeastDelay(intervalSeconds, n));
    assert LeastDelay(intervalSeconds, n) == NominalMs(intervalSeconds, n) * 0.8;
  }

  /** For intervals of whole seconds, as every configured one is, the smallest delay is exactly the real one. */
  lemma WholeSecondsLoseNothing(seconds: int, errorCount: nat)
    ensures MinBackoffMs(seconds as real, errorCount) as real == LeastDelay(seconds as real, errorCount)
  {
    NominalFollowsLaw(seconds as real, errorCount);
    var s := if seconds < 1 then 1 else if seconds < 30 then seconds else 30;
    assert BaseMs(seconds as real) == 1000.0 * s as real;
    var k := WholeThousands(s, if errorCount == 0 then 0 else errorCount - 1);
    hide Round, BackoffLaw;
    if 1000.0 * k as real <= BACKOFF_CAP_MS {
      assert NominalMs(seconds as real, errorCount) * 0.8 == (800 * k) as real;
      RoundWhole(800 * k);
    } else {
      assert NominalMs(seconds as real, errorCount) * 0.8 == 240_000 as real;
      RoundWhole(240_000);
    }
  }

  /** An interval whose first delay does lose something. */
  lemma FractionalSecondsCanLose()
    ensures MinBackoffMs(1.0006, 1) as real < LeastDelay(1.0006, 1)
  {
    assert NominalMs(1.0006, 1) == 1000.6;
    NominalFollowsLaw(1.0006, 1);
    hide BackoffLaw;
  }

  // ---------------------------------------------------------------- one job

  datatype Admission = Admit | Skip(reason: SkipReason)

  /** The guards of runJob, in order. */
  function AdmissionAt(schedulerDisabled: bool, j: Job, checkedAt: int): Admission {
    if schedulerDisabled || j.definition.disabled then Skip(Disabled)
    else if j.stopped then Skip(Stopped)
    else if j.inFlight then Skip(Running)
    else if j.nextEligibleAt.Some? && checkedAt < j.nextEligibleAt.value then Skip(Backoff)
    else Admit
  }

  function Requested(schedulerDisabled: bool, j: Job, checkedAt: int, startedAt: int): Job {
    match AdmissionAt(schedulerDisabled, j, checkedAt)
    case Skip(reason) => j.(skippedCount := j.skippedCount + 1, lastSkipReason := Some(reason))
    case Admit =>
      j.(inFlight := true, inFlightStartedAt := Some(startedAt), inFlightHeartbeatAt := Some(startedAt),
      lastRunAt := Some(startedAt), runCount := j.runCount + 1)
  }

  function Duration(j: Job, finishedAt: int): int {
    var elapsed := finishedAt - (if j.lastRunAt.Some? then j.lastRunAt.value else finishedAt);
    if elapsed < 0 then 0 else elapsed
  }

  function Idle(j: Job): Job {
    j.(inFlight := false, inFlightStartedAt := None, inFlightHeartbeatAt := None)
  }

  function Succeeded(j: Job, finishedAt: int, r: RunResult): Job {
    Idle(j).(lastDurationMs := Some(Duration(j, finishedAt)), lastSuccessAt := Some(finishedAt), lastError := None,
    errorCount := 0, lastFailureAt := None, successCount := j.successCount + 1,
    rowsWritten := r.rowsWritten, rowsPruned := r.rowsPruned, partialFailures := r.partialFailures,
    nextEligibleAt := None, lastSkipReason := None)
  }

  function Failed(j: Job, finishedAt: int, message: string, jitter: Jitter): Job {
    Idle(j).(lastDurationMs := Some(Duration(j, finishedAt)), lastError := Some(message),
    lastFailureAt := Some(finishedAt), errorCount := j.errorCount + 1,
    rowsWritten := None, rowsPruned := None, partialFailures := [],
    nextEligibleAt := Some(finishedAt + BackoffMs(j.definition.intervalSeconds, j.errorCount + 1, jitter)))
  }

  function Started(schedulerDisabled: bool, j: Job, checkedAt: int, startedAt: int): Job {
    var awake := j.(stopped := false);
    if schedulerDisabled || j.definition.disabled then awake
    else
      (if j.definition.runImmediately then Requested(schedulerDisabled, awake, checkedAt, startedAt) else awake)
      .(timer := true)
  }

  function Halted(j: Job): Job {
    j.(stopped := true, timer := false)
  }

  datatype Event =
    | Request(checkedAt: int, startedAt: int) // a tick or runNow
    | Resolve(finishedAt: int, result: RunResult)
    | Reject(finishedAt: int, message: string, jitter: Jitter)
    | Start(startCheckedAt: int, startStartedAt: int)
    | Stop

  /** The job, with what its environment did: runner promises not yet settled, and failed runs. */
  datatype World = World(job: Job, outstanding: nat, failures: nat)

  function Begins(was: Job, now: Job): nat {
    if now.runCount > was.runCount then 1 else 0
  }

  /** Runners settle only if one is outstanding; the job's own flags are not consulted. */
  predicate Enabled(w: World, e: Event) {
    (e.Resolve? || e.Reject?) ==> w.outstanding > 0
  }

  function Step(schedulerDisabled: bool, w: World, e: Event): World
    requires Enabled(w, e)
  {
    match e
    case Request(checkedAt, startedAt) =>
      var j := Requested(schedulerDisabled, w.job, checkedAt, startedAt);
      World(j, w.outstanding + Begins(w.job, j), w.failures)
    case Resolve(finishedAt, result) => World(Succeeded(w.job, finishedAt, result), w.outstanding - 1, w.failures)
    case Reject(finishedAt, message, jitter) =>
      World(Failed(w.job, finishedAt, message, jitter), w.outstanding - 1, w.failures + 1)
    case Start(checkedAt, startedAt) =>
      var j := Started(schedulerDisabled, w.job, checkedAt, startedAt);
      World(j, w.outstanding + Begins(w.job, j), w.failures)
    case Stop => World(Halted(w.job), w.outstanding, w.failures)
  }

  /** The job after any sequence of events since registration; None if a runner settled that was not outstanding. */
  function Run(schedulerDisabled: bool, d: Definition, es: seq<Event>): Option<World> {
    if es == [] then Some(World(Registered(d), 0, 0))
    else
      match Run(schedulerDisabled, d, es[..|es| - 1])
      case None => None
      case Some(v) => if Enabled(v, es[|es| - 1]) then Some(Step(schedulerDisabled, v, es[|es| - 1])) else None
  }

  /** How often the job was asked to run; an immediate job is also asked when the scheduler starts. */
  function Requests(schedulerDisabled: bool, d: Definition, es: seq<Event>): nat {
    if es == [] then 0
    else Requests(schedulerDisabled, d, es[..|es| - 1]) + Asked(schedulerDisabled, d, es[|es| - 1])
  }

  predicate Consistent(w: World) {
    var j := w.job;
    && w.outstanding == (if j.inFlight then 1 else 0)
    && (j.inFlight <==> j.inFlightStartedAt.Some?)
    && j.inFlightHeartbeatAt == j.inFlightStartedAt
    && (j.inFlight ==> j.lastRunAt == j.inFlightStartedAt)
    && j.runCount == j.successCount + w.failures + w.outstanding
    && (j.errorCount > 0 <==> j.nextEligibleAt.Some?)
    && (j.errorCount > 0 <==> j.lastError.Some?)
    && (j.errorCount > 0 <==> j.lastFailureAt.Some?)
    && j.errorCount <= w.failures
  }

  predicate Inert(schedulerDisabled: bool, j: Job) {
    schedulerDisabled || j.definition.disabled ==> j.runCount == 0 && !j.timer
  }

  function Asked(schedulerDisabled: bool, d: Definition, e: Event): nat {
    match e
    case Request(_, _) => 1
    case Start(_, _) => if d.runImmediately && !d.disabled && !schedulerDisabled then 1 else 0
    case _ => 0
  }

  /** A request of the job, stopped or woken. */
  lemma RequestedIsConsistent(schedulerDisabled: bool, v: World, j: Job, checkedAt: int, startedAt: int)
    requires Consistent(v) && Inert(schedulerDisabled, v.job) && j.(stopped := v.job.stopped) == v.job
    ensures var r := Requested(schedulerDisabled, j, checkedAt, startedAt);
            && Consistent(World(r, v.outstanding + Begins(j, r), v.failures)) && Inert(schedulerDisabled, r)
            && r.definition == j.definition && r.timer == j.timer && r.stopped == j.stopped
            && r.runCount + r.skippedCount == j.runCount + j.skippedCount + 1
  {
  }

  lemma SettledIsConsistent(schedulerDisabled: bool, v: World, e: Event)
    requires Consistent(v) && Inert(schedulerDisabled, v.job) && Enabled(v, e) && (e.Resolve? || e.Reject?)
    ensures var w := Step(schedulerDisabled, v, e);
            && Consistent(w) && Inert(schedulerDisabled, w.job) && w.job.definition == v.job.definition
            && w.job.runCount == v.job.runCount && w.job.skippedCount == v.job.skippedCount
  {
    hide BackoffMs, Duration;
  }

  lemma StepKeepsConsistent(schedulerDisabled: bool, v: World, e: Event)
    requires Consistent(v) && Inert(schedulerDisabled, v.job) && Enabled(v, e)
    ensures var w := Step(schedulerDisabled, v, e);
            && Consistent(w) && Inert(schedulerDisabled, w.job) && w.job.definition == v.job.definition
            && w.job.runCount + w.job.skippedCount
               == v.job.runCount + v.job.skippedCount + Asked(schedulerDisabled, v.job.definition, e)
  {
    match e
    case Request(checkedAt, startedAt) => RequestedIsConsistent(schedulerDisabled, v, v.job, checkedAt, startedAt);
    case Start(checkedAt, startedAt) =>
      hide AdmissionAt;
      RequestedIsConsistent(schedulerDisabled, v, v.job.(stopped := false), checkedAt, startedAt);
    case Stop =>
    case Resolve(_, _) => SettledIsConsistent(schedulerDisabled, v, e);
    case Reject(_, _, _) => SettledIsConsistent(schedulerDisabled, v, e);
  }

  /**
   * In every reachable state at most one runner is outstanding and the in-flight columns say so;
   * runs = successes + failures + the one in flight; every request was a run or a recorded skip;
   * the failure columns and the retry time are set together.
   */
  lemma {:induction false} ReachableIsConsistent(schedulerDisabled: bool, d: Definition, es: seq<Event>)
    requires Run(schedulerDisabled, d, es).Some?
    ensures var w := Run(schedulerDisabled, d, es).value;
            && Consistent(w) && Inert(schedulerDisabled, w.job) && w.job.definition == d
            && w.job.runCount + w.job.skippedCount == Requests(schedulerDisabled, d, es)
    decreases |es|
  {
    hide Step;
    if es != [] {
      ReachableIsConsistent(schedulerDisabled, d, es[..|es| - 1]);
      StepKeepsConsistent(schedulerDisabled, Run(schedulerDisabled, d, es[..|es| - 1]).value, es[|es| - 1]);
    }
  }

  // ---------------------------------------------------------------- failure streaks

  function FirstClock(e: Event): Option<int> {
    match e
    case Request(checkedAt, _) => Some(checkedAt)
    case Resolve(finishedAt, _) => Some(finishedAt)
    case Reject(finishedAt, _, _) => Some(finishedAt)
    case Start(checkedAt, _) => Some(checkedAt)
    case Stop => None
  }

  function LastClock(e: Event): Option<int> {
    match e
    case Request(_, startedAt) => Some(startedAt)
    case Start(_, startedAt) => Some(startedAt)
    case _ => FirstClock(e)
  }

  /** The clock never runs backwards from one reading to the next; latest bounds all readings so far. */
  predicate Monotone(es: seq<Event>, latest: int) {
    if es == [] then true
    else
      var e := es[|es| - 1];
      match FirstClock(e)
      case None => Monotone(es[..|es| - 1], latest)
      case Some(t) => t <= LastClock(e).value <= latest && Monotone(es[..|es| - 1], t)
  }

  /** The time of the first failure since the last success. */
  function StreakStart(es: seq<Event>): Option<int> {
    if es == [] then None
    else match es[|es| - 1]
         case Resolve(_, _) => None
         case Reject(finishedAt, _, _) =>
           if StreakStart(es[..|es| - 1]).Some? then StreakStart(es[..|es| - 1]) else Some(finishedAt)
         case _ => StreakStart(es[..|es| - 1])
  }

  /** The least total delay of k failures in a row. */
  function MinTotalMs(intervalSeconds: real, k: nat): int {
    if k == 0 then 0 else MinTotalMs(intervalSeconds, k - 1) + MinBackoffMs(intervalSeconds, k)
  }

  /** The sum of 0.8 times the law's delays for the failures 1 to k, as a real number. */
  function RealTotal(intervalSeconds: real, k: nat): real {
    if k == 0 then 0.0 else RealTotal(intervalSeconds, k - 1) + LeastDelay(intervalSeconds, k)
  }

  lemma {:induction false} WholeSecondsTotal(seconds: int, k: nat)
    ensures MinTotalMs(seconds as real, k) as real == RealTotal(seconds as real, k)
  {
    hide MinBackoffMs, LeastDelay;
    if k > 0 {
      WholeSecondsTotal(seconds, k - 1);
      WholeSecondsLoseNothing(seconds, k);
    }
  }

  /** Rounding moves the total of k delays by at most k half milliseconds. */
  lemma {:induction false} TotalIsClose(intervalSeconds: real, k: nat)
    ensures RealTotal(intervalSeconds, k) - 0.5 * k as real <= MinTotalMs(intervalSeconds, k) as real
    ensures MinTotalMs(intervalSeconds, k) as real <= RealTotal(intervalSeconds, k) + 0.5 * k as real
  {
    hide MinBackoffMs, LeastDelay;
    if k > 0 {
      TotalIsClose(intervalSeconds, k - 1);
      MinBackoffKeepsIff(intervalSeconds, k);
    }
  }

  predicate StreakHeld(intervalSeconds: real, j: Job, streakStart: Option<int>, latest: int) {
    && (j.errorCount > 0 <==> streakStart.Some?)
    && (j.errorCount > 0 ==>
        && j.nextEligibleAt.Some?
        && streakStart.value + MinTotalMs(intervalSeconds, j.errorCount) <= j.nextEligibleAt.value
        && (j.inFlight ==> j.nextEligibleAt.value <= latest))
  }

  /** The streak start after one more event. */
  function StreakAfter(before: Option<int>, e: Event): Option<int> {
    match e
    case Resolve(_, _) => None
    case Reject(finishedAt, _, _) => if before.Some? then before else Some(finishedAt)
    case _ => before
  }

  lemma StreakStep(schedulerDisabled: bool, v: World, e: Event, before: Option<int>, latest: int)
    requires Consistent(v) && Enabled(v, e)
    requires StreakHeld(v.job.definition.intervalSeconds, v.job, before, if FirstClock(e).Some? then FirstClock(e).value else latest)
    requires FirstClock(e).Some? ==> FirstClock(e).value <= LastClock(e).value <= latest
    ensures var w := Step(schedulerDisabled, v, e);
            StreakHeld(v.job.definition.intervalSeconds, w.job, StreakAfter(before, e), latest)
  {
    hide BackoffMs, MinBackoffMs, Duration;
    if e.Reject? {
      var seconds, k := v.job.definition.intervalSeconds, v.job.errorCount;
      BackoffBounds(seconds, k + 1, e.jitter);
      assert MinTotalMs(seconds, k + 1) == MinTotalMs(seconds, k) + MinBackoffMs(seconds, k + 1);
      assert k == 0 ==> MinTotalMs(seconds, k) == 0;
    }
  }

  lemma {:induction false} StreakAccumulates(schedulerDisabled: bool, d: Definition, es: seq<Event>, latest: int)
    requires Run(schedulerDisabled, d, es).Some? && Monotone(es, latest)
    ensures StreakHeld(d.intervalSeconds, Run(schedulerDisabled, d, es).value.job, StreakStart(es), latest)
    decreases |es|
  {
    if es != [] {
      hide Step, Consistent, StreakHeld;
      var e, before := es[|es| - 1], es[..|es| - 1];
      ReachableIsConsistent(schedulerDisabled, d, before);
      StreakAccumulates(schedulerDisabled, d, before, if FirstClock(e).Some? then FirstClock(e).value else latest);
      StreakStep(schedulerDisabled, Run(schedulerDisabled, d, before).value, e, StreakStart(before), latest);
    }
  }

  /** After k failures in a row a request reading `checkedAt` on a clock that never ran backwards is admitted. */
  ghost predicate AdmittedAfter(schedulerDisabled: bool, d: Definition, es: seq<Event>, checkedAt: int, k: nat) {
    && Run(schedulerDisabled, d, es).Some? && Monotone(es, checkedAt)
    && var j := Run(schedulerDisabled, d, es).value.job;
       j.errorCount == k && AdmissionAt(schedulerDisabled, j, checkedAt).Admit?
  }

  lemma NextStartWaitsOutDelays(schedulerDisabled: bool, d: Definition, es: seq<Event>, checkedAt: int, k: nat)
    requires k > 0 && AdmittedAfter(schedulerDisabled, d, es, checkedAt, k)
    ensures StreakStart(es).Some?
    ensures StreakStart(es).value + MinTotalMs(d.intervalSeconds, k) <= checkedAt
  {
    StreakAccumulates(schedulerDisabled, d, es, checkedAt);
  }

  /**
   * On a monotone clock, after k failures in a row the next run is not admitted before the first
   * failure plus the real sum of the k smallest delays, for every interval of whole seconds; for
   * any other interval it is admitted at most k half milliseconds earlier.
   */
  lemma NextStartWaitsOutStreak(schedulerDisabled: bool, d: Definition, es: seq<Event>, checkedAt: int, k: nat)
    requires k > 0 && AdmittedAfter(schedulerDisabled, d, es, checkedAt, k)
    ensures StreakStart(es).Some?
    ensures d.intervalSeconds == d.intervalSeconds.Floor as real ==>
              StreakStart(es).value as real + RealTotal(d.intervalSeconds, k) <= checkedAt as real
    ensures StreakStart(es).value as real + RealTotal(d.intervalSeconds, k) - 0.5 * k as real <= checkedAt as real
  {
    NextStartWaitsOutDelays(schedulerDisabled, d, es, checkedAt, k);
    hide AdmittedAfter, MinTotalMs, RealTotal, StreakStart;
    TotalIsClose(d.intervalSeconds, k);
    if d.intervalSeconds == d.intervalSeconds.Floor as real {
      WholeSecondsTotal(d.intervalSeconds.Floor, k);
    }
  }

  lemma RunSnoc(schedulerDisabled: bool, d: Definition, es: seq<Event>, e: Event)
    requires Run(schedulerDisabled, d, es).Some? && Enabled(Run(schedulerDisabled, d, es).value, e)
    ensures Run(schedulerDisabled, d, es + [e])
         == Some(Step(schedulerDisabled, Run(schedulerDisabled, d, es).value, e))
  {
    hide Step;
    assert (es + [e])[..|es|] == es;
  }

  /** The job of a run of k failures, each as early and with as small a delay as can be, starting at time 0. */
  ghost predicate FailedFast(d: Definition, es: seq<Event>, k: nat) {
    && Run(false, d, es).Some? && Monotone(es, MinTotalMs(d.intervalSeconds, k))
    && StreakStart(es) == (if k == 0 then None else Some(0))
    && var w := Run(false, d, es).value;
       && w.job.definition == d && !w.job.inFlight && !w.job.stopped && w.job.errorCount == k
       && w.job.nextEligibleAt == if k == 0 then None else Some(MinTotalMs(d.intervalSeconds, k))
  }

  lemma FailOnce(d: Definition, es: seq<Event>, k: nat)
    requires !d.disabled && FailedFast(d, es, k)
    ensures var at := MinTotalMs(d.intervalSeconds, k);
            FailedFast(d, es + [Request(at, at)] + [Reject(at, "", 0.8)], k + 1)
  {
    hide MinTotalMs, NominalMs, Run, Monotone, StreakStart;
    var at := MinTotalMs(d.intervalSeconds, k);
    var asked := es + [Request(at, at)];
    RunSnoc(false, d, es, Request(at, at));
    RunSnoc(false, d, asked, Reject(at, "", 0.8));
    FailClocks(es, at);
    MinTotalNext(d.intervalSeconds, k);
  }

  lemma MinTotalNext(intervalSeconds: real, k: nat)
    ensures MinTotalMs(intervalSeconds, k + 1)
         == MinTotalMs(intervalSeconds, k) + BackoffMs(intervalSeconds, k + 1, 0.8)
    ensures MinTotalMs(intervalSeconds, k + 1) >= MinTotalMs(intervalSeconds, k)
    ensures k == 0 ==> MinTotalMs(intervalSeconds, k) == 0
  {
    BackoffBounds(intervalSeconds, k + 1, 0.8);
  }

  lemma FailClocks(es: seq<Event>, at: int)
    requires Monotone(es, at)
    ensures var more := es + [Request(at, at)] + [Reject(at, "", 0.8)];
            && (forall latest :: at <= latest ==> Monotone(more, latest))
            && StreakStart(more) == if StreakStart(es).Some? then StreakStart(es) else Some(at)
  {
    var asked := es + [Request(at, at)];
    assert asked[..|es|] == es;
    assert (asked + [Reject(at, "", 0.8)])[..|asked|] == asked;
  }

  lemma {:induction false} FastFailuresExist(d: Definition, k: nat) returns (es: seq<Event>)
    requires !d.disabled
    ensures FailedFast(d, es, k)
  {
    if k == 0 {
      es := [];
    } else {
      hide FailedFast;
      es := FastFailuresExist(d, k - 1);
      FailOnce(d, es, k - 1);
      var at := MinTotalMs(d.intervalSeconds, k - 1);
      es := es + [Request(at, at)] + [Reject(at, "", 0.8)];
    }
  }

  /** In every run the next start after k failures waits out the real sum. */
  ghost predicate AlwaysWaits(d: Definition, k: nat) {
    forall es, checkedAt :: AdmittedAfter(false, d, es, checkedAt, k) ==>
      StreakStart(es).Some? && StreakStart(es).value as real + RealTotal(d.intervalSeconds, k) <= checkedAt as real
  }

  /** The real sum is waited out in every run exactly when the rounded delays add up to at least as much. */
  lemma StreakFloorIff(d: Definition, k: nat)
    requires !d.disabled && k > 0
    ensures AlwaysWaits(d, k) <==> MinTotalMs(d.intervalSeconds, k) as real >= RealTotal(d.intervalSeconds, k)
  {
    if MinTotalMs(d.intervalSeconds, k) as real >= RealTotal(d.intervalSeconds, k) {
      forall es, checkedAt | AdmittedAfter(false, d, es, checkedAt, k)
        ensures StreakStart(es).Some?
        ensures StreakStart(es).value as real + RealTotal(d.intervalSeconds, k) <= checkedAt as real
      {
        hide AdmittedAfter, MinTotalMs, RealTotal, StreakStart;
        NextStartWaitsOutDelays(false, d, es, checkedAt, k);
      }
    } else {
      hide MinTotalMs, RealTotal, StreakStart, Run, Monotone;
      var es := FastFailuresExist(d, k);
      assert AdmittedAfter(false, d, es, MinTotalMs(d.intervalSeconds, k), k);
    }
  }

  // ---------------------------------------------------------------- the job's columns, read off its events

  /** The last start or stop. */
  function LastSwitch(es: seq<Event>): Option<Event> {
    if es == [] then None
    else if es[|es| - 1].Start? || es[|es| - 1].Stop? then Some(es[|es| - 1])
    else LastSwitch(es[..|es| - 1])
  }

  predicate StoppedBy(es: seq<Event>) { LastSwitch(es).Some? && LastSwitch(es).value.Stop? }

  predicate StartedBy(es: seq<Event>) { LastSwitch(es).Some? && LastSwitch(es).value.Start? }

  /** Failures since the last success. */
  function FailuresInRow(es: seq<Event>): nat {
    if es == [] then 0
    else match es[|es| - 1]
         case Resolve(_, _) => 0
         case Reject(_, _, _) => FailuresInRow(es[..|es| - 1]) + 1
         case _ => FailuresInRow(es[..|es| - 1])
  }

  /** The last run to settle, if it settled that way. */
  function LastSettle(es: seq<Event>): Option<Event> {
    if es == [] then None
    else if es[|es| - 1].Resolve? || es[|es| - 1].Reject? then Some(es[|es| - 1])
    else LastSettle(es[..|es| - 1])
  }

  function LastSuccess(es: seq<Event>): Option<int> {
    if es == [] then None
    else if es[|es| - 1].Resolve? then Some(es[|es| - 1].finishedAt)
    else LastSuccess(es[..|es| - 1])
  }

  /** A failure asks for the law's delay of its place in the streak, times its jitter, from the moment it settled. */
  function RetryAt(d: Definition, es: seq<Event>): Option<int> {
    var last := LastSettle(es);
    if last.Some? && last.value.Reject? then
      Some(last.value.finishedAt + LawMs(d.intervalSeconds, FailuresInRow(es), last.value.jitter))
    else None
  }

  /** What a request meets after these events: the first of the four reasons to skip that applies. */
  function Answer(disabled: bool, d: Definition, es: seq<Event>, stopped: bool, checkedAt: int): Admission
    decreases |es|, 2
  {
    if disabled || d.disabled then Skip(Disabled)
    else if stopped then Skip(Stopped)
    else if UnderWay(disabled, d, es) then Skip(Running)
    else if RetryAt(d, es).Some? && RetryAt(d, es).value > checkedAt then Skip(Backoff)
    else Admit
  }

  /** What the last event asked for met, if it asked: a tick or runNow, or the start of an immediate job. */
  function Met(disabled: bool, d: Definition, es: seq<Event>): Option<Admission>
    requires es != []
    decreases |es|, 0
  {
    var before := es[..|es| - 1];
    match es[|es| - 1]
    case Request(checkedAt, _) => Some(Answer(disabled, d, before, StoppedBy(before), checkedAt))
    case Start(checkedAt, _) =>
      if d.runImmediately && !d.disabled && !disabled then Some(Answer(disabled, d, before, false, checkedAt)) else None
    case _ => None
  }

  /** A run has begun and not settled. */
  predicate UnderWay(disabled: bool, d: Definition, es: seq<Event>)
    decreases |es|, 1
  {
    if es == [] then false
    else if es[|es| - 1].Resolve? || es[|es| - 1].Reject? then false
    else Met(disabled, d, es) == Some(Admit) || UnderWay(disabled, d, es[..|es| - 1])
  }

  function StartReading(e: Event): int {
    match e
    case Request(_, startedAt) => startedAt
    case Start(_, startedAt) => startedAt
    case _ => 0
  }

  /** When the last run began. */
  function LastBegin(disabled: bool, d: Definition, es: seq<Event>): Option<int> {
    if es == [] then None
    else if Met(disabled, d, es) == Some(Admit) then Some(StartReading(es[|es| - 1]))
    else LastBegin(disabled, d, es[..|es| - 1])
  }

  function RunsBegun(disabled: bool, d: Definition, es: seq<Event>): nat {
    if es == [] then 0
    else RunsBegun(disabled, d, es[..|es| - 1]) + if Met(disabled, d, es) == Some(Admit) then 1 else 0
  }

  function Skips(disabled: bool, d: Definition, es: seq<Event>): nat {
    if es == [] then 0
    else
      Skips(disabled, d, es[..|es| - 1])
      + if Met(disabled, d, es).Some? && Met(disabled, d, es).value.Skip? then 1 else 0
  }

  /** The last reason to skip since the last success. */
  function LastSkip(disabled: bool, d: Definition, es: seq<Event>): Option<SkipReason> {
    if es == [] || es[|es| - 1].Resolve? then None
    else
      var met := Met(disabled, d, es);
      if met.Some? && met.value.Skip? then Some(met.value.reason) else LastSkip(disabled, d, es[..|es| - 1])
  }

  function Successes(es: seq<Event>): nat {
    if es == [] then 0 else Successes(es[..|es| - 1]) + if es[|es| - 1].Resolve? then 1 else 0
  }

  /** How long the last run to settle took; a clock that ran backwards gives 0. */
  function LastDuration(disabled: bool, d: Definition, es: seq<Event>): Option<int> {
    if es == [] then None
    else if es[|es| - 1].Resolve? || es[|es| - 1].Reject? then
      var begun := LastBegin(disabled, d, es);
      Some(if begun.Some? && es[|es| - 1].finishedAt > begun.value then es[|es| - 1].finishedAt - begun.value else 0)
    else LastDuration(disabled, d, es[..|es| - 1])
  }

  /** Starting, stopping, running and skipping. */
  predicate TellsRuns(j: Job, disabled: bool, d: Definition, es: seq<Event>) {
    var running := UnderWay(disabled, d, es);
    && j.definition == d
    && j.stopped == StoppedBy(es) && j.timer == (StartedBy(es) && !d.disabled && !disabled)
    && j.inFlight == running && j.lastRunAt == LastBegin(disabled, d, es)
    && (running ==> j.lastRunAt.Some?)
    && j.inFlightStartedAt == (if running then j.lastRunAt else None) && j.inFlightHeartbeatAt == j.inFlightStartedAt
    && j.runCount == RunsBegun(disabled, d, es) && j.skippedCount == Skips(disabled, d, es)
    && j.lastSkipReason == LastSkip(disabled, d, es)
  }

  /** How runs came out. */
  predicate TellsOutcomes(j: Job, d: Definition, es: seq<Event>) {
    var last := LastSettle(es);
    && j.successCount == Successes(es) && j.lastSuccessAt == LastSuccess(es)
    && j.errorCount == FailuresInRow(es) && j.nextEligibleAt == RetryAt(d, es)
    && (if last.Some? && last.value.Reject? then
          && j.lastError == Some(last.value.message) && j.lastFailureAt == Some(last.value.finishedAt)
          && j.rowsWritten.None? && j.rowsPruned.None? && j.partialFailures == []
        else j.lastError.None? && j.lastFailureAt.None?)
    && (last.None? ==> j.rowsWritten.None? && j.rowsPruned.None? && j.partialFailures == [])
    && (last.Some? && last.value.Resolve? ==>
          && j.rowsWritten == last.value.result.rowsWritten && j.rowsPruned == last.value.result.rowsPruned
          && j.partialFailures == last.value.result.partialFailures)
  }

  lemma AdmissionTells(disabled: bool, d: Definition, es: seq<Event>, j: Job, stopped: bool, checkedAt: int)
    requires TellsRuns(j, disabled, d, es) && TellsOutcomes(j, d, es)
    ensures AdmissionAt(disabled, j.(stopped := stopped), checkedAt) == Answer(disabled, d, es, stopped, checkedAt)
  {
    hide UnderWay, RetryAt;
  }

  /** The histories after one more event. */
  lemma RunsNext(disabled: bool, d: Definition, es: seq<Event>)
    requires es != []
    ensures var before, e, met := es[..|es| - 1], es[|es| - 1], Met(disabled, d, es);
            && (e.Request? ==> met == Some(Answer(disabled, d, before, StoppedBy(before), e.checkedAt)))
            && (e.Start? ==> met == if d.runImmediately && !d.disabled && !disabled
                                    then Some(Answer(disabled, d, before, false, e.startCheckedAt)) else None)
            && (!e.Request? && !e.Start? ==> met.None?)
            && StoppedBy(es) == (e.Stop? || (!e.Start? && StoppedBy(before)))
            && StartedBy(es) == (e.Start? || (!e.Stop? && StartedBy(before)))
            && UnderWay(disabled, d, es) == (!e.Resolve? && !e.Reject? && (met == Some(Admit) || UnderWay(disabled, d, before)))
            && LastBegin(disabled, d, es) ==
               (if met == Some(Admit) then Some(StartReading(e)) else LastBegin(disabled, d, before))
            && RunsBegun(disabled, d, es) == RunsBegun(disabled, d, before) + (if met == Some(Admit) then 1 else 0)
            && Skips(disabled, d, es) == Skips(disabled, d, before) + (if met.Some? && met.value.Skip? then 1 else 0)
            && LastSkip(disabled, d, es) == (if e.Resolve? then None
                                             else if met.Some? && met.value.Skip? then Some(met.value.reason)
                                             else LastSkip(disabled, d, before))
  {
    hide Answer;
  }

  lemma RequestTold(disabled: bool, d: Definition, es: seq<Event>, v: World)
    requires es != [] && es[|es| - 1].Request?
    requires var before := es[..|es| - 1]; TellsRuns(v.job, disabled, d, before) && TellsOutcomes(v.job, d, before)
    ensures TellsRuns(Step(disabled, v, es[|es| - 1]).job, disabled, d, es)
  {
    hide Answer, AdmissionAt, Duration, BackoffMs, TellsOutcomes, Met, StoppedBy, StartedBy, UnderWay, LastBegin, RunsBegun, Skips,
      LastSkip;
    RunsNext(disabled, d, es);
    assert v.job.(stopped := v.job.stopped) == v.job;
    AdmissionTells(disabled, d, es[..|es| - 1], v.job, v.job.stopped, es[|es| - 1].checkedAt);
  }

  lemma StartTold(disabled: bool, d: Definition, es: seq<Event>, v: World)
    requires es != [] && es[|es| - 1].Start?
    requires var before := es[..|es| - 1]; TellsRuns(v.job, disabled, d, before) && TellsOutcomes(v.job, d, before)
    ensures TellsRuns(Step(disabled, v, es[|es| - 1]).job, disabled, d, es)
  {
    hide Answer, AdmissionAt, Duration, BackoffMs, TellsOutcomes, Met, StoppedBy, StartedBy, UnderWay, LastBegin, RunsBegun, Skips,
      LastSkip;
    RunsNext(disabled, d, es);
    AdmissionTells(disabled, d, es[..|es| - 1], v.job, false, es[|es| - 1].startCheckedAt);
  }

  lemma RunsTold(disabled: bool, d: Definition, es: seq<Event>, v: World)
    requires es != [] && Enabled(v, es[|es| - 1])
    requires var before := es[..|es| - 1]; TellsRuns(v.job, disabled, d, before) && TellsOutcomes(v.job, d, before)
    ensures TellsRuns(Step(disabled, v, es[|es| - 1]).job, disabled, d, es)
  {
    hide Answer, AdmissionAt, Duration, BackoffMs, TellsOutcomes, Met, StoppedBy, StartedBy, UnderWay, LastBegin, RunsBegun, Skips,
      LastSkip, Requested, Started;
    match es[|es| - 1] {
      case Request(_, _) => RequestTold(disabled, d, es, v);
      case Start(_, _) => StartTold(disabled, d, es, v);
      case _ => RunsNext(disabled, d, es);
    }
  }

  lemma OutcomesNext(d: Definition, es: seq<Event>)
    requires es != []
    ensures var before, e := es[..|es| - 1], es[|es| - 1];
            && FailuresInRow(es) == (if e.Resolve? then 0 else FailuresInRow(before) + if e.Reject? then 1 else 0)
            && LastSettle(es) == (if e.Resolve? || e.Reject? then Some(e) else LastSettle(before))
            && LastSuccess(es) == (if e.Resolve? then Some(e.finishedAt) else LastSuccess(before))
            && Successes(es) == Successes(before) + (if e.Resolve? then 1 else 0)
            && RetryAt(d, es) == (if e.Resolve? then None
                                  else if e.Reject? then Some(e.finishedAt + LawMs(d.intervalSeconds, FailuresInRow(es), e.jitter))
                                  else RetryAt(d, before))
  {
    hide LawMs;
  }

  predicate SameOutcomes(j: Job, k: Job) {
    && j.successCount == k.successCount && j.lastSuccessAt == k.lastSuccessAt
    && j.errorCount == k.errorCount && j.nextEligibleAt == k.nextEligibleAt
    && j.lastError == k.lastError && j.lastFailureAt == k.lastFailureAt
    && j.rowsWritten == k.rowsWritten && j.rowsPruned == k.rowsPruned && j.partialFailures == k.partialFailures
  }

  lemma OtherEventsKeepOutcomes(disabled: bool, v: World, e: Event)
    requires Enabled(v, e) && !e.Resolve? && !e.Reject?
    ensures SameOutcomes(Step(disabled, v, e).job, v.job)
  {
    hide AdmissionAt, Failed, Succeeded, SameOutcomes;
    match e
    case Request(checkedAt, startedAt) => RequestKeepsOutcomes(disabled, v.job, checkedAt, startedAt);
    case Start(checkedAt, startedAt) => StartKeepsOutcomes(disabled, v.job, checkedAt, startedAt);
    case Stop => StopKeepsOutcomes(v.job);
  }

  lemma RequestKeepsOutcomes(disabled: bool, j: Job, checkedAt: int, startedAt: int)
    ensures SameOutcomes(Requested(disabled, j, checkedAt, startedAt), j)
  {
    hide AdmissionAt;
  }

  lemma StartKeepsOutcomes(disabled: bool, j: Job, checkedAt: int, startedAt: int)
    ensures SameOutcomes(Started(disabled, j, checkedAt, startedAt), j)
  {
    hide Requested;
    RequestKeepsOutcomes(disabled, j.(stopped := false), checkedAt, startedAt);
  }

  lemma StopKeepsOutcomes(j: Job)
    ensures SameOutcomes(Halted(j), j)
  {
  }

  lemma OutcomesTold(disabled: bool, d: Definition, es: seq<Event>, v: World)
    requires es != [] && Enabled(v, es[|es| - 1]) && v.job.definition == d
    requires TellsOutcomes(v.job, d, es[..|es| - 1])
    ensures TellsOutcomes(Step(disabled, v, es[|es| - 1]).job, d, es)
  {
    hide FailuresInRow, LastSettle, LastSuccess, Successes, RetryAt, LawMs, BackoffMs, Duration;
    OutcomesNext(d, es);
    var e := es[|es| - 1];
    match e {
      case Reject(_, _, jitter) =>
        hide Requested, Started, Halted, Succeeded;
        DelayIsLaw(d.intervalSeconds, FailuresInRow(es), jitter);
      case Resolve(_, _) =>
        hide Requested, Started, Halted, Failed;
      case _ =>
        OtherEventsKeepOutcomes(disabled, v, e);
        hide Step;
    }
  }

  lemma DurationTold(disabled: bool, d: Definition, es: seq<Event>, v: World)
    requires es != [] && Enabled(v, es[|es| - 1])
    requires TellsRuns(v.job, disabled, d, es[..|es| - 1])
    requires v.job.lastDurationMs == LastDuration(disabled, d, es[..|es| - 1])
    ensures Step(disabled, v, es[|es| - 1]).job.lastDurationMs == LastDuration(disabled, d, es)
  {
    hide AdmissionAt, BackoffMs, Answer, Met, StoppedBy, StartedBy, UnderWay, LastBegin, RunsBegun, Skips, LastSkip;
    RunsNext(disabled, d, es);
  }

  /** In every run every column of a job is what its events say. */
  lemma {:induction false} JobTellsHistory(disabled: bool, d: Definition, es: seq<Event>)
    requires Run(disabled, d, es).Some?
    ensures var j := Run(disabled, d, es).value.job;
            && TellsRuns(j, disabled, d, es) && TellsOutcomes(j, d, es)
            && j.lastDurationMs == LastDuration(disabled, d, es)
    decreases |es|
  {
    if es != [] {
      hide Step, TellsRuns, TellsOutcomes, LastDuration;
      JobTellsHistory(disabled, d, es[..|es| - 1]);
      var v := Run(disabled, d, es[..|es| - 1]).value;
      RunsTold(disabled, d, es, v);
      DefinitionTold(v.job, disabled, d, es[..|es| - 1]);
      OutcomesTold(disabled, d, es, v);
      DurationTold(disabled, d, es, v);
    }
  }

  lemma DefinitionTold(j: Job, disabled: bool, d: Definition, es: seq<Event>)
    requires TellsRuns(j, disabled, d, es)
    ensures j.definition == d
  {
  }

  /** A request is admitted, or skipped with that reason, exactly as the events before it say. */
  lemma AdmissionFollowsHistory(disabled: bool, d: Definition, es: seq<Event>, checkedAt: int)
    requires Run(disabled, d, es).Some?
    ensures AdmissionAt(disabled, Run(disabled, d, es).value.job, checkedAt) == Answer(disabled, d, es, StoppedBy(es), checkedAt)
  {
    JobTellsHistory(disabled, d, es);
    var j := Run(disabled, d, es).value.job;
    AdmissionTells(disabled, d, es, j, j.stopped, checkedAt);
    hide Run, Answer, AdmissionAt, TellsOutcomes;
    assert j.(stopped := j.stopped) == j;
  }

  /** Between a stop and the next start no run begins, whatever asks for one. */
  lemma {:induction false} StoppedBeginsNothing(disabled: bool, d: Definition, es: seq<Event>, n: nat)
    requires n < |es| && es[n].Stop? && forall i :: n < i < |es| ==> !es[i].Start?
    ensures StoppedBy(es) && RunsBegun(disabled, d, es) == RunsBegun(disabled, d, es[..n])
    decreases |es|
  {
    var k := |es| - 1;
    if n < k {
      assert es[..k][n] == es[n] && es[..k][..n] == es[..n];
      StoppedBeginsNothing(disabled, d, es[..k], n);
      if es[k].Request? { NoAnswerAdmits(disabled, d, es[..k], es[k].checkedAt); }
    }
  }

  lemma NoAnswerAdmits(disabled: bool, d: Definition, es: seq<Event>, checkedAt: int)
    ensures Answer(disabled, d, es, true, checkedAt).Skip?
  {
  }

  // ---------------------------------------------------------------- diagnostics

  datatype Status = StatusIdle | StatusBlocked | StatusRetrying | StatusFailed | StatusSkipped
                  | StatusPartialFailure | StatusLagging | StatusStaleRun

  function StaleAfterSeconds(d: Definition): real {
    match d.staleAfterSeconds
    case Some(s) => s
    case None => Greatest(60.0, d.intervalSeconds * 3.0)
  }

  function StaleDurationSeconds(j: Job, now: int): Option<int> {
    if j.inFlightStartedAt.None? then None
    else
      var heartbeat := if j.inFlightHeartbeatAt.Some? then j.inFlightHeartbeatAt.value else j.inFlightStartedAt.value;
      Some((((now - heartbeat) as real - StaleAfterSeconds(j.definition) * 1000.0) / 1000.0).Floor)
  }

  predicate IsStale(j: Job, now: int) {
    StaleDurationSeconds(j, now).Some? && StaleDurationSeconds(j, now).value > 0
  }

  function LagSeconds(j: Job, now: int): Option<int> {
    if j.lastRunAt.None? then None
    else
      var lag := (((now - j.lastRunAt.value) as real - j.definition.intervalSeconds * 1000.0) / 1000.0).Floor;
      Some(if lag < 0 then 0 else lag)
  }

  function ResolveStatus(schedulerDisabled: bool, j: Job, now: int): Status {
    if schedulerDisabled then StatusBlocked
    else if j.definition.disabled then StatusBlocked
    else if IsStale(j, now) then StatusStaleRun
    else if j.inFlight then (if j.lastSkipReason == Some(Running) then StatusBlocked else StatusIdle)
    else if j.nextEligibleAt.Some? && now < j.nextEligibleAt.value then StatusRetrying
    else if j.errorCount > 0 && j.lastError.Some? && j.lastError.value != "" then StatusFailed
    else if j.partialFailures != [] then StatusPartialFailure
    else if j.lastSkipReason.Some? then StatusSkipped
    else if LagSeconds(j, now).Some? && LagSeconds(j, now).value > 0 then StatusLagging
    else StatusIdle
  }

  function NextRunAt(j: Job): Option<int> { j.nextEligibleAt }

  function NextRetryAt(j: Job): Option<int> {
    if j.nextEligibleAt.Some? && j.errorCount > 0 then j.nextEligibleAt else None
  }

  /**
   * What the diagnostics say matches what a request at that moment would meet, were the job not
   * stopped: every status is explained by one admission, the two retry columns agree, and a run
   * is shown stale exactly from one full second past its threshold.
   */
  lemma DiagnosticsMatchAdmission(schedulerDisabled: bool, d: Definition, es: seq<Event>, now: int)
    requires Run(schedulerDisabled, d, es).Some?
    ensures var w := Run(schedulerDisabled, d, es).value;
            var j := w.job;
            var status, met := ResolveStatus(schedulerDisabled, j, now), AdmissionAt(schedulerDisabled, j.(stopped := false), now);
            && NextRunAt(j) == NextRetryAt(j)
            && (AdmissionAt(schedulerDisabled, j, now) == (if j.stopped && met != Skip(Disabled) then Skip(Stopped) else met))
            && (status.StatusRetrying? <==> met == Skip(Backoff))
            && (status.StatusStaleRun? <==> met == Skip(Running) && IsStale(j, now))
            && (status.StatusBlocked? <==>
                met == Skip(Disabled) || (met == Skip(Running) && !IsStale(j, now) && j.lastSkipReason == Some(Running)))
            && (status.StatusFailed? <==> met == Admit && j.errorCount > 0 && j.lastError != Some(""))
            && (status.StatusPartialFailure? || status.StatusSkipped? || status.StatusLagging? ==> met == Admit)
            && (status.StatusIdle? ==> met == Admit || met == Skip(Running))
            && (IsStale(j, now) <==>
                (w.outstanding == 1 && j.lastRunAt.Some?
                 && j.lastRunAt.value as real + (StaleAfterSeconds(d) + 1.0) * 1000.0 <= now as real))
  {
    hide Run;
    ReachableIsConsistent(schedulerDisabled, d, es);
  }

  /** The lag shown is the whole seconds since the next run was due, none before. */
  lemma LagIs(j: Job, now: int, due: real)
    requires j.lastRunAt.Some? && due == j.lastRunAt.value as real + 1000.0 * j.definition.intervalSeconds
    ensures var lag := LagSeconds(j, now);
            && lag.Some? && lag.value >= 0
            && (lag.value == 0 <==> now as real < due + 1000.0)
            && (lag.value > 0 ==> due + 1000.0 * lag.value as real <= now as real < due + 1000.0 * (lag.value + 1) as real)
  {
  }

  /** A run under way shows the whole seconds since its threshold. */
  lemma StaleDurationIs(j: Job, now: int, due: real)
    requires j.inFlightHeartbeatAt.Some? && j.inFlightStartedAt.Some?
    requires due == j.inFlightHeartbeatAt.value as real + 1000.0 * Threshold(j.definition)
    ensures var seconds := StaleDurationSeconds(j, now);
            seconds.Some? && due + 1000.0 * seconds.value as real <= now as real < due + 1000.0 * (seconds.value + 1) as real
  {
    ThresholdIs(j.definition);
    hide StaleAfterSeconds, Threshold;
  }

  /** The configured threshold, or three intervals but a minute at least. */
  ghost function Threshold(d: Definition): real {
    if d.staleAfterSeconds.Some? then d.staleAfterSeconds.value
    else if d.intervalSeconds >= 20.0 then 3.0 * d.intervalSeconds else 60.0
  }

  lemma ThresholdIs(d: Definition)
    ensures StaleAfterSeconds(d) == Threshold(d)
  {
  }

  /** One full second past its threshold. */
  ghost predicate Overdue(j: Job, now: int) {
    j.lastRunAt.Some? && j.lastRunAt.value as real + 1000.0 * (Threshold(j.definition) + 1.0) <= now as real
  }

  /** One full second past the interval since its last run began. */
  ghost predicate Late(j: Job, now: int) {
    j.lastRunAt.Some? && j.lastRunAt.value as real + 1000.0 * (j.definition.intervalSeconds + 1.0) <= now as real
  }

  /**
   * Which status a job shows: each of a run under way is told by its age and the last skip, and each of a job
   * that could run now by the first that applies of a failure, partial failures, a skip and a late run.
   */
  lemma StatusIs(schedulerDisabled: bool, d: Definition, es: seq<Event>, now: int)
    requires Run(schedulerDisabled, d, es).Some?
    ensures var j := Run(schedulerDisabled, d, es).value.job;
            var status, met := ResolveStatus(schedulerDisabled, j, now), AdmissionAt(schedulerDisabled, j.(stopped := false), now);
            var failed := j.errorCount > 0 && j.lastError != Some("");
            match met
            case Skip(Disabled) => status == StatusBlocked
            case Skip(Backoff) => status == StatusRetrying
            case Skip(Running) =>
              && (Overdue(j, now) <==> status == StatusStaleRun)
              && (!Overdue(j, now) && j.lastSkipReason == Some(Running) <==> status == StatusBlocked)
              && (!Overdue(j, now) && j.lastSkipReason != Some(Running) <==> status == StatusIdle)
            case Admit =>
              && (failed <==> status == StatusFailed)
              && (!failed && j.partialFailures != [] <==> status == StatusPartialFailure)
              && (!failed && j.partialFailures == [] && j.lastSkipReason.Some? <==> status == StatusSkipped)
              && (!failed && j.partialFailures == [] && j.lastSkipReason.None? && Late(j, now) <==> status == StatusLagging)
              && (!failed && j.partialFailures == [] && j.lastSkipReason.None? && !Late(j, now) <==> status == StatusIdle)
            case Skip(Stopped) => false
  {
    DiagnosticsMatchAdmission(schedulerDisabled, d, es, now);
    ReachableIsConsistent(schedulerDisabled, d, es);
    ThresholdIs(d);
    hide Run;
    var j := Run(schedulerDisabled, d, es).value.job;
    if j.lastRunAt.Some? { LagIs(j, now, j.lastRunAt.value as real + 1000.0 * j.definition.intervalSeconds); }
    hide LagSeconds, StaleAfterSeconds, StaleDurationSeconds, IsStale, Threshold;
  }

  // ---------------------------------------------------------------- the scheduler object

  datatype RequestOutcome = UnknownJob | Skipped(reason: SkipReason) | Began

  class UnifiedScheduler {
    const disabled: bool
    var jobs: map<string, Job>
    var started: bool

    constructor (disabled: bool)
      ensures this.disabled == disabled && jobs == map[] && !started
    {
      this.disabled, jobs, started := disabled, map[], false;
    }

    /** Exactly one job changed. */
    twostate predicate OnlyJob(name: string, j: Job)
      reads this
    {
      jobs == old(jobs)[name := j] && started == old(started)
    }

    method Register(d: Definition) returns (added: bool)
      modifies this
      ensures added == (d.name !in old(jobs))
      ensures if added then OnlyJob(d.name, Registered(d)) else unchanged(this)
    {
      added := d.name !in jobs;
      if added {
        jobs := jobs[d.name := Registered(d)];
      }
    }

    method RunJob(name: string, checkedAt: int, startedAt: int) returns (outcome: RequestOutcome)
      modifies this
      ensures outcome.UnknownJob? <==> name !in old(jobs)
      ensures outcome.UnknownJob? ==> unchanged(this)
      ensures name in old(jobs) ==>
                && OnlyJob(name, Requested(disabled, old(jobs)[name], checkedAt, startedAt))
                && (outcome.Began? <==> AdmissionAt(disabled, old(jobs)[name], checkedAt).Admit?)
                && (outcome.Skipped? ==> AdmissionAt(disabled, old(jobs)[name], checkedAt) == Skip(outcome.reason))
    {
      if name !in jobs { return UnknownJob; }
      var j := jobs[name];
      if disabled || j.definition.disabled {
        outcome := Skipped(Disabled);
      } else if j.stopped {
        outcome := Skipped(Stopped);
      } else if j.inFlight {
        outcome := Skipped(Running);
      } else if j.nextEligibleAt.Some? && checkedAt < j.nextEligibleAt.value {
        outcome := Skipped(Backoff);
      } else {
        outcome := Began;
      }
      if outcome.Began? {
        j := j.(inFlight := true);
        j := j.(inFlightStartedAt := Some(startedAt), inFlightHeartbeatAt := Some(startedAt));
        j := j.(lastRunAt := Some(startedAt), runCount := j.runCount + 1);
      } else {
        j := j.(skippedCount := j.skippedCount + 1, lastSkipReason := Some(outcome.reason));
      }
      jobs := jobs[name := j];
    }

    method SettleSucceeded(name: string, finishedAt: int, r: RunResult)
      requires name in jobs
      modifies this
      ensures OnlyJob(name, Succeeded(old(jobs)[name], finishedAt, r))
    {
      var j := jobs[name];
      j := j.(lastDurationMs := Some(Duration(j, finishedAt)), lastSuccessAt := Some(finishedAt));
      j := j.(lastError := None, errorCount := 0, lastFailureAt := None, successCount := j.successCount + 1);
      j := j.(rowsWritten := r.rowsWritten, rowsPruned := r.rowsPruned, partialFailures := r.partialFailures);
      j := j.(nextEligibleAt := None, lastSkipReason := None);
      j := j.(inFlight := false, inFlightStartedAt := None, inFlightHeartbeatAt := None);
      jobs := jobs[name := j];
    }

    method SettleFailed(name: string, finishedAt: int, message: string, jitter: Jitter)
      requires name in jobs
      modifies this
      ensures OnlyJob(name, Failed(old(jobs)[name], finishedAt, message, jitter))
    {
      var j := jobs[name];
      j := j.(lastDurationMs := Some(Duration(j, finishedAt)), lastError := Some(message));
      j := j.(lastFailureAt := Some(finishedAt), errorCount := j.errorCount + 1);
      j := j.(rowsWritten := None, rowsPruned := None, partialFailures := []);
      j := j.(nextEligibleAt := Some(finishedAt + BackoffMs(j.definition.intervalSeconds, j.errorCount, jitter)));
      j := j.(inFlight := false, inFlightStartedAt := None, inFlightHeartbeatAt := None);
      jobs := jobs[name := j];
    }

    /** start() reaching one job. */
    method StartJob(name: string, checkedAt: int, startedAt: int)
      requires name in jobs
      modifies this
      ensures OnlyJob(name, Started(disabled, old(jobs)[name], checkedAt, startedAt))
    {
      jobs := jobs[name := jobs[name].(stopped := false)];
      if jobs[name].definition.disabled || disabled { return; }
      if jobs[name].definition.runImmediately {
        var _ := RunJob(name, checkedAt, startedAt);
      }
      jobs := jobs[name := jobs[name].(timer := true)];
    }

    /** clock gives the two readings an immediate run of each job takes. */
    method StartAll(clock: string -> (int, int))
      modifies this
      ensures started
      ensures old(started) ==> unchanged(this)
      ensures !old(started) ==> jobs.Keys == old(jobs.Keys)
      ensures !old(started) ==>
                forall n :: n in jobs ==> jobs[n] == Started(disabled, old(jobs)[n], clock(n).0, clock(n).1)
    {
      if started { return; }
      started := true;
      hide Started;
      var todo := jobs.Keys;
      while todo != {}
        invariant todo <= jobs.Keys == old(jobs.Keys) && started
        invariant forall n :: n in todo ==> jobs[n] == old(jobs)[n]
        invariant forall n :: n in jobs && n !in todo ==>
                    jobs[n] == Started(disabled, old(jobs)[n], clock(n).0, clock(n).1)
        decreases todo
      {
        var name :| name in todo;
        todo := todo - {name};
        StartJob(name, clock(name).0, clock(name).1);
      }
    }

    /** The synchronous part of stop(); the started flag falls only after waiting for runs in flight. */
    method StopAll()
      modifies this
      ensures started == old(started) && jobs.Keys == old(jobs.Keys)
      ensures forall n :: n in jobs ==> jobs[n] == Halted(old(jobs)[n])
    {
      var todo := jobs.Keys;
      while todo != {}
        invariant todo <= jobs.Keys == old(jobs.Keys) && started == old(started)
        invariant forall n :: n in jobs ==> jobs[n] == if n in todo then old(jobs)[n] else Halted(old(jobs)[n])
        decreases todo
      {
        var name :| name in todo;
        todo := todo - {name};
        jobs := jobs[name := jobs[name].(stopped := true, timer := false)];
      }
    }

    method StopFinished()
      modifies this
      ensures !started && jobs == old(jobs)
    {
      started := false;
    }
  }
}
