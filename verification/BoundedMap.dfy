/**
 * The bounded-concurrency map (src/lib/async.ts): lanes share one index counter and one result
 * array, and every await is a point where another lane may run. A lane runs from one await to the
 * next without interruption, so a step is either starting a lane or settling the call it awaits.
 */
module BoundedMap {
  import opened Common

  /** The values of a JavaScript number, as far as the lane count is concerned. */
  datatype Number = Finite(x: real) | PositiveInfinity | NegativeInfinity | NaN

  datatype Outcome<+O> = Value(value: O) | Rejection(error: string)

  datatype Lane = Idle | Awaiting(index: nat) | Finished | Failed(index: nat)

  /** One call of the worker: which lane made it, on which index. */
  datatype Call = Call(lane: nat, index: nat)

  /** `failure` is what the combined promise rejected with; `calls` lists the worker calls in order. */
  datatype Pool<+O> = Pool(
    nextIndex: nat, results: seq<Option<O>>, lanes: seq<Lane>, failure: Option<string>, calls: seq<Call>)

  datatype Event = Start(lane: nat) | Settle(lane: nat)

  type Worker<!I, !O> = (I, nat) -> Outcome<O>

  /** Math.min(Math.max(1, Math.floor(c)), n) used as an array length: NaN gives no lanes. */
  function LaneCount(c: Number, n: nat): nat {
    if n == 0 then 0
    else
      match c
      case Finite(x) => if x.Floor < 1 then 1 else if x.Floor > n then n else x.Floor
      case PositiveInfinity => n
      case NegativeInfinity => 1
      case NaN => 0
  }

  /** The most lanes that neither exceed the items nor the requested number, but one at least; no lane for no item or NaN. */
  lemma LaneCountIs(c: Number, n: nat)
    requires n > 0
    ensures var l := LaneCount(c, n);
            match c
            case Finite(x) => 1 <= l <= n && (l == 1 || l as real <= x) && (l == n || x < (l + 1) as real)
            case PositiveInfinity => l == n
            case NegativeInfinity => l == 1
            case NaN => l == 0
    ensures LaneCount(c, 0) == 0
  {
  }

  function Fresh<O>(n: nat, laneCount: nat): Pool<O> {
    Pool(0, seq(n, _ => None), seq(laneCount, _ => Idle), None, [])
  }

  /** The loop head: take the next index and call the worker, or finish. */
  function Claimed<O>(p: Pool<O>, lane: nat): Pool<O>
    requires lane < |p.lanes|
  {
    if p.nextIndex < |p.results| then
      p.(nextIndex := p.nextIndex + 1, lanes := p.lanes[lane := Awaiting(p.nextIndex)],
         calls := p.calls + [Call(lane, p.nextIndex)])
    else p.(lanes := p.lanes[lane := Finished])
  }

  predicate Enabled<O>(p: Pool<O>, e: Event) {
    match e
    case Start(lane) => lane < |p.lanes| && p.lanes[lane].Idle?
    case Settle(lane) => lane < |p.lanes| && p.lanes[lane].Awaiting? && p.lanes[lane].index < |p.results|
  }

  function Step<I, O>(p: Pool<O>, items: seq<I>, worker: Worker<I, O>, e: Event): Pool<O>
    requires Enabled(p, e) && |p.results| == |items|
  {
    match e
    case Start(lane) => Claimed(p, lane)
    case Settle(lane) =>
      var i := p.lanes[lane].index;
      match worker(items[i], i)
      case Value(v) => Claimed(p.(results := p.results[i := Some(v)]), lane)
      case Rejection(error) =>
        p.(lanes := p.lanes[lane := Failed(i)], failure := if p.failure.None? then Some(error) else p.failure)
  }

  /** The pool after an interleaving; None when some step of it could not happen. */
  function Run<I, O>(items: seq<I>, worker: Worker<I, O>, laneCount: nat, events: seq<Event>): Option<Pool<O>> {
    if events == [] then Some(Fresh(|items|, laneCount))
    else
      var e := events[|events| - 1];
      match Run(items, worker, laneCount, events[..|events| - 1])
      case None => None
      case Some(q) => if |q.results| == |items| && Enabled(q, e) then Some(Step(q, items, worker, e)) else None
  }

  /** An interleaving goes on with a step exactly when that step is enabled. */
  lemma RunNext<I, O>(items: seq<I>, worker: Worker<I, O>, laneCount: nat, events: seq<Event>, e: Event)
    requires Run(items, worker, laneCount, events).Some?
    requires |Run(items, worker, laneCount, events).value.results| == |items|
    ensures var p, next := Run(items, worker, laneCount, events).value, Run(items, worker, laneCount, events + [e]);
            && (next.Some? <==> Enabled(p, e))
            && (Enabled(p, e) ==> next == Some(Step(p, items, worker, e)))
  {
    hide Step, Enabled;
    assert (events + [e])[..|events|] == events;
  }

  // ---------------------------------------------------------------- the invariant

  ghost predicate Shaped<O>(p: Pool<O>, n: nat, laneCount: nat) {
    |p.results| == n && |p.lanes| == laneCount && p.nextIndex <= n
  }

  /** The k-th call of the worker is on index k: every index is called at most once, in order. */
  ghost predicate CalledInOrder<O>(p: Pool<O>) {
    && |p.calls| == p.nextIndex
    && forall k :: 0 <= k < |p.calls| ==> p.calls[k].index == k && p.calls[k].lane < |p.lanes|
  }

  /** A lane awaits, or failed on, an index it called itself, and finishes only when nothing is left. */
  ghost predicate LanesOwnCalls<I, O>(p: Pool<O>, items: seq<I>, worker: Worker<I, O>)
    requires |p.results| == |items|
  {
    forall l :: 0 <= l < |p.lanes| ==>
      match p.lanes[l]
      case Idle => true
      case Awaiting(i) => i < |p.calls| && i < |items| && p.calls[i].lane == l && p.results[i].None?
      case Failed(i) => i < |p.calls| && i < |items| && p.calls[i].lane == l && worker(items[i], i).Rejection?
      case Finished => p.nextIndex == |items|
  }

  /** A filled slot holds the worker's own value; an unfilled called slot is awaited or failed by its caller. */
  ghost predicate SlotsRight<I, O>(p: Pool<O>, items: seq<I>, worker: Worker<I, O>)
    requires |p.results| == |items|
  {
    forall i :: 0 <= i < |items| ==>
      match p.results[i]
      case Some(v) => i < p.nextIndex && worker(items[i], i) == Value(v)
      case None => i < p.nextIndex ==> CallerHolds(p, i)
  }

  ghost predicate CallerHolds<O>(p: Pool<O>, i: nat) {
    && i < |p.calls| && p.calls[i].lane < |p.lanes|
    && (p.lanes[p.calls[i].lane] == Awaiting(i) || p.lanes[p.calls[i].lane] == Failed(i))
  }

  ghost predicate FailureRight<I, O>(p: Pool<O>, items: seq<I>, worker: Worker<I, O>)
    requires |p.results| == |items|
  {
    && (p.failure.None? <==> forall l :: 0 <= l < |p.lanes| ==> !p.lanes[l].Failed?)
    && (p.failure.Some? ==>
          exists i :: 0 <= i < p.nextIndex && i < |items| && worker(items[i], i) == Rejection(p.failure.value))
  }

  ghost predicate Sound<I, O>(p: Pool<O>, items: seq<I>, worker: Worker<I, O>, laneCount: nat) {
    && Shaped(p, |items|, laneCount)
    && CalledInOrder(p)
    && LanesOwnCalls(p, items, worker)
    && SlotsRight(p, items, worker)
    && FailureRight(p, items, worker)
  }

  lemma ClaimKeepsSound<I, O>(p: Pool<O>, items: seq<I>, worker: Worker<I, O>, laneCount: nat, lane: nat)
    requires lane < laneCount && Shaped(p, |items|, laneCount) && CalledInOrder(p)
    requires LanesOwnCalls(p.(lanes := p.lanes[lane := Idle]), items, worker)
    requires SlotsRight(p.(lanes := p.lanes[lane := Idle]), items, worker)
    requires FailureRight(p.(lanes := p.lanes[lane := Idle]), items, worker)
    ensures Sound(Claimed(p, lane), items, worker, laneCount)
  {
    var idle := p.(lanes := p.lanes[lane := Idle]);
    var q := Claimed(p, lane);
    assert forall l :: 0 <= l < |q.lanes| && l != lane ==> q.lanes[l] == idle.lanes[l];
    assert CalledInOrder(q);
    assert LanesOwnCalls(q, items, worker);
    ClaimKeepsSlots(p, items, worker, lane);
    assert forall l :: 0 <= l < |q.lanes| ==> (q.lanes[l].Failed? <==> idle.lanes[l].Failed?);
    assert FailureRight(q, items, worker);
  }

  lemma ClaimKeepsSlots<I, O>(p: Pool<O>, items: seq<I>, worker: Worker<I, O>, lane: nat)
    requires lane < |p.lanes| && Shaped(p, |items|, |p.lanes|) && CalledInOrder(p)
    requires SlotsRight(p.(lanes := p.lanes[lane := Idle]), items, worker)
    ensures SlotsRight(Claimed(p, lane), items, worker)
  {
    var idle := p.(lanes := p.lanes[lane := Idle]);
    var q := Claimed(p, lane);
    forall i | 0 <= i < |items| && q.results[i].None? && i < q.nextIndex
      ensures CallerHolds(q, i)
    {
      if i < p.nextIndex {
        assert CallerHolds(idle, i);
      }
    }
  }

  lemma SettleReady<I, O>(p: Pool<O>, items: seq<I>, worker: Worker<I, O>, laneCount: nat, lane: nat)
    requires Sound(p, items, worker, laneCount) && Enabled(p, Settle(lane))
    requires worker(items[p.lanes[lane].index], p.lanes[lane].index).Value?
    ensures var i := p.lanes[lane].index;
            var written := p.(results := p.results[i := Some(worker(items[i], i).value)],
                              lanes := p.lanes[lane := Idle]);
            && LanesOwnCalls(written, items, worker)
            && SlotsRight(written, items, worker)
            && FailureRight(written, items, worker)
  {
    var i := p.lanes[lane].index;
    var written := p.(results := p.results[i := Some(worker(items[i], i).value)], lanes := p.lanes[lane := Idle]);
    assert forall l :: 0 <= l < |p.lanes| && l != lane ==> written.lanes[l] == p.lanes[l];
    assert LanesOwnCalls(written, items, worker);
    forall j | 0 <= j < |items| && written.results[j].None? && j < written.nextIndex
      ensures CallerHolds(written, j)
    {
      assert CallerHolds(p, j);
    }
    assert forall l :: 0 <= l < |p.lanes| ==> (written.lanes[l].Failed? <==> p.lanes[l].Failed?);
  }

  lemma RejectionKeepsSound<I, O>(p: Pool<O>, items: seq<I>, worker: Worker<I, O>, laneCount: nat, lane: nat)
    requires Sound(p, items, worker, laneCount) && Enabled(p, Settle(lane))
    requires worker(items[p.lanes[lane].index], p.lanes[lane].index).Rejection?
    ensures Sound(Step(p, items, worker, Settle(lane)), items, worker, laneCount)
  {
    var i := p.lanes[lane].index;
    var q := Step(p, items, worker, Settle(lane));
    assert forall l :: 0 <= l < |p.lanes| && l != lane ==> q.lanes[l] == p.lanes[l];
    assert q.lanes[lane] == Failed(i);
    assert LanesOwnCalls(q, items, worker);
    forall j | 0 <= j < |items| && q.results[j].None? && j < q.nextIndex
      ensures CallerHolds(q, j)
    {
      assert CallerHolds(p, j);
    }
    assert FailureRight(q, items, worker);
  }

  /** Every step keeps the invariant, whatever ran before it. */
  lemma StepKeepsSound<I, O>(p: Pool<O>, items: seq<I>, worker: Worker<I, O>, laneCount: nat, e: Event)
    requires Sound(p, items, worker, laneCount) && Enabled(p, e)
    ensures Sound(Step(p, items, worker, e), items, worker, laneCount)
  {
    match e
    case Start(lane) =>
      assert p.lanes[lane := Idle] == p.lanes;
      assert p.(lanes := p.lanes[lane := Idle]) == p;
      ClaimKeepsSound(p, items, worker, laneCount, lane);
    case Settle(lane) =>
      var i := p.lanes[lane].index;
      match worker(items[i], i)
      case Rejection(_) => RejectionKeepsSound(p, items, worker, laneCount, lane);
      case Value(v) =>
        SettleReady(p, items, worker, laneCount, lane);
        ClaimKeepsSound(p.(results := p.results[i := Some(v)]), items, worker, laneCount, lane);
  }

  lemma {:induction false} ReachableIsSound<I, O>(
    items: seq<I>, worker: Worker<I, O>, laneCount: nat, events: seq<Event>)
    requires Run(items, worker, laneCount, events).Some?
    ensures Sound(Run(items, worker, laneCount, events).value, items, worker, laneCount)
    decreases |events|
  {
    if events != [] {
      var shorter, e := events[..|events| - 1], events[|events| - 1];
      ReachableIsSound(items, worker, laneCount, shorter);
      StepKeepsSound(Run(items, worker, laneCount, shorter).value, items, worker, laneCount, e);
    }
  }

  // ---------------------------------------------------------------- what every interleaving gives

  predicate Quiescent<O>(p: Pool<O>) {
    forall l :: 0 <= l < |p.lanes| ==> p.lanes[l].Finished? || p.lanes[l].Failed?
  }

  predicate Rejects<I, O>(items: seq<I>, worker: Worker<I, O>) {
    exists i :: 0 <= i < |items| && worker(items[i], i).Rejection?
  }

  function Settles(events: seq<Event>): nat {
    if events == [] then 0
    else Settles(events[..|events| - 1]) + (if events[|events| - 1].Settle? then 1 else 0)
  }

  function Awaited(lanes: seq<Lane>): nat {
    if lanes == [] then 0
    else Awaited(lanes[..|lanes| - 1]) + (if lanes[|lanes| - 1].Awaiting? then 1 else 0)
  }

  function Unstarted(lanes: seq<Lane>): nat {
    if lanes == [] then 0
    else Unstarted(lanes[..|lanes| - 1]) + (if lanes[|lanes| - 1].Idle? then 1 else 0)
  }

  lemma {:induction false} OneLaneChanges(lanes: seq<Lane>, lane: nat, now: Lane)
    requires lane < |lanes|
    ensures Awaited(lanes[lane := now]) ==
            Awaited(lanes) + (if now.Awaiting? then 1 else 0) - (if lanes[lane].Awaiting? then 1 else 0)
    ensures Unstarted(lanes[lane := now]) ==
            Unstarted(lanes) + (if now.Idle? then 1 else 0) - (if lanes[lane].Idle? then 1 else 0)
    ensures Awaited(lanes) <= |lanes| && Unstarted(lanes) <= |lanes|
  {
    var last := |lanes| - 1;
    var shorter := lanes[..last];
    if lane == last {
      assert lanes[lane := now][..last] == shorter;
      if shorter != [] { OneLaneChanges(shorter, 0, shorter[0]); }
    } else {
      assert lanes[lane := now][..last] == shorter[lane := now];
      OneLaneChanges(shorter, lane, now);
    }
  }

  lemma {:induction false} AllUnstarted(n: nat)
    ensures Awaited(seq(n, _ => Idle)) == 0 && Unstarted(seq(n, _ => Idle)) == n
  {
    if n > 0 {
      assert seq(n, _ => Idle)[..n - 1] == seq(n - 1, _ => Idle);
      AllUnstarted(n - 1);
    }
  }

  lemma StepMovesCounts<I, O>(q: Pool<O>, items: seq<I>, worker: Worker<I, O>, e: Event)
    requires Enabled(q, e) && |q.results| == |items|
    ensures var p := Step(q, items, worker, e);
            && |p.lanes| == |q.lanes|
            && |p.calls| - Awaited(p.lanes) == |q.calls| - Awaited(q.lanes) + (if e.Settle? then 1 else 0)
            && Unstarted(p.lanes) == Unstarted(q.lanes) - (if e.Start? then 1 else 0)
  {
    var p := Step(q, items, worker, e);
    var now := p.lanes[e.lane];
    assert p.lanes == q.lanes[e.lane := now];
    OneLaneChanges(q.lanes, e.lane, now);
  }

  /** Calls made less calls settled is the number of awaiting lanes: never more than there are lanes. */
  lemma {:induction false} OutstandingBounded<I, O>(
    items: seq<I>, worker: Worker<I, O>, laneCount: nat, events: seq<Event>)
    requires Run(items, worker, laneCount, events).Some?
    ensures var p := Run(items, worker, laneCount, events).value;
            && |p.calls| - Settles(events) == Awaited(p.lanes)
            && Awaited(p.lanes) <= laneCount
            && |events| + Unstarted(p.lanes) == laneCount + Settles(events)
    decreases |events|
  {
    if events == [] {
      AllUnstarted(laneCount);
    } else {
      var shorter, e := events[..|events| - 1], events[|events| - 1];
      OutstandingBounded(items, worker, laneCount, shorter);
      StepMovesCounts(Run(items, worker, laneCount, shorter).value, items, worker, e);
    }
    ReachableIsSound(items, worker, laneCount, events);
    var lanes := Run(items, worker, laneCount, events).value.lanes;
    if lanes != [] { OneLaneChanges(lanes, 0, Idle); }
  }

  /** Claimed indices are exactly those below nextIndex, each claimed by one call. */
  lemma EachIndexCalledOnce<I, O>(items: seq<I>, worker: Worker<I, O>, laneCount: nat, events: seq<Event>, i: nat)
    requires Run(items, worker, laneCount, events).Some?
    ensures var p := Run(items, worker, laneCount, events).value;
            && p.nextIndex <= |items|
            && (i < p.nextIndex <==> exists k :: 0 <= k < |p.calls| && p.calls[k].index == i)
            && forall j, k :: 0 <= j < |p.calls| && 0 <= k < |p.calls| && p.calls[j].index == p.calls[k].index ==> j == k
  {
    ReachableIsSound(items, worker, laneCount, events);
    var p := Run(items, worker, laneCount, events).value;
    if i < p.nextIndex {
      assert p.calls[i].index == i;
    }
  }

  /** No interleaving has more steps than lanes and items together, and one that cannot go on is quiescent. */
  lemma StepsBounded<I, O>(items: seq<I>, worker: Worker<I, O>, laneCount: nat, events: seq<Event>)
    requires Run(items, worker, laneCount, events).Some?
    ensures |events| <= laneCount + |items|
    ensures var p := Run(items, worker, laneCount, events).value;
            Quiescent(p) <==> forall e :: !Enabled(p, e)
  {
    ReachableIsSound(items, worker, laneCount, events);
    OutstandingBounded(items, worker, laneCount, events);
    var p := Run(items, worker, laneCount, events).value;
    if forall e :: !Enabled(p, e) {
      forall l | 0 <= l < |p.lanes|
        ensures p.lanes[l].Finished? || p.lanes[l].Failed?
      {
        assert !Enabled(p, Start(l)) && !Enabled(p, Settle(l));
      }
    }
  }

  ghost predicate IsSequentialMap<I, O>(results: seq<Option<O>>, items: seq<I>, worker: Worker<I, O>) {
    && |results| == |items|
    && forall i :: 0 <= i < |items| ==> results[i].Some? && worker(items[i], i) == Value(results[i].value)
  }

  /** A pool with no lanes never calls the worker. */
  lemma {:induction false} NoLanesNoSteps<I, O>(items: seq<I>, worker: Worker<I, O>, events: seq<Event>)
    requires Run(items, worker, 0, events).Some?
    ensures events == []
  {
    if events != [] {
      ReachableIsSound(items, worker, 0, events[..|events| - 1]);
      assert false;
    }
  }

  lemma SettledWithoutFailure<I, O>(p: Pool<O>, items: seq<I>, worker: Worker<I, O>, laneCount: nat)
    requires Sound(p, items, worker, laneCount) && Quiescent(p) && laneCount > 0 && p.failure.None?
    ensures IsSequentialMap(p.results, items, worker)
  {
    assert p.lanes[0].Finished?;
    forall i | 0 <= i < |items|
      ensures p.results[i].Some?
    {
      assert p.results[i].None? ==> CallerHolds(p, i);
    }
  }

  /**
   * When everything has run, the map fulfils exactly when no call rejects, whatever the interleaving,
   * and then it is the sequential map with no holes. The exception is a NaN concurrency on a
   * non-empty list: no lane starts and the map fulfils with holes only.
   */
  lemma RefinesSequentialMap<I, O>(items: seq<I>, c: Number, worker: Worker<I, O>, events: seq<Event>)
    requires Run(items, worker, LaneCount(c, |items|), events).Some?
    requires Quiescent(Run(items, worker, LaneCount(c, |items|), events).value)
    ensures var p := Run(items, worker, LaneCount(c, |items|), events).value;
            && (p.failure.None? <==> !Rejects(items, worker) || c.NaN?)
            && (p.failure.None? && IsSequentialMap(p.results, items, worker) <==>
                !Rejects(items, worker) && (!c.NaN? || items == []))
            && (p.failure.Some? ==>
                  exists i :: 0 <= i < |items| && worker(items[i], i) == Rejection(p.failure.value))
  {
    var laneCount := LaneCount(c, |items|);
    var p := Run(items, worker, laneCount, events).value;
    ReachableIsSound(items, worker, laneCount, events);
    if laneCount == 0 {
      NoLanesNoSteps(items, worker, events);
      if items != [] {
        assert p.results[0].None?;
      }
    } else if p.failure.None? {
      SettledWithoutFailure(p, items, worker, laneCount);
    }
  }

  /** The combined promise keeps the first rejection. */
  lemma FirstRejectionStays<I, O>(items: seq<I>, worker: Worker<I, O>, laneCount: nat, events: seq<Event>, more: seq<Event>)
    requires Run(items, worker, laneCount, events + more).Some?
    ensures Run(items, worker, laneCount, events).Some?
    ensures var p := Run(items, worker, laneCount, events).value;
            p.failure.Some? ==> Run(items, worker, laneCount, events + more).value.failure == p.failure
    decreases |more|
  {
    if more == [] {
      assert events + more == events;
    } else {
      assert (events + more)[..|events + more| - 1] == events + more[..|more| - 1];
      FirstRejectionStays(items, worker, laneCount, events, more[..|more| - 1]);
    }
  }

  // ---------------------------------------------------------------- the pool in place

  class LanePool<I, O> {
    const items: seq<I>
    const worker: Worker<I, O>
    var nextIndex: nat
    var results: array<Option<O>>
    var lanes: seq<Lane>
    var failure: Option<string>
    ghost var calls: seq<Call>
    ghost var history: seq<Event>
    const laneCount: nat

    ghost function State(): Pool<O>
      reads this, results
    {
      Pool(nextIndex, results[..], lanes, failure, calls)
    }

    /** The fields are what the interleaving recorded so far leads to. */
    ghost predicate Valid()
      reads this, results
    {
      Run(items, worker, laneCount, history) == Some(State())
    }

    constructor (items: seq<I>, concurrency: Number, worker: Worker<I, O>)
      ensures this.items == items && this.worker == worker && laneCount == LaneCount(concurrency, |items|)
      ensures Valid() && history == [] && fresh(results)
    {
      this.items, this.worker := items, worker;
      laneCount := LaneCount(concurrency, |items|);
      nextIndex := 0;
      results := new Option<O>[|items|](_ => None);
      lanes := seq(LaneCount(concurrency, |items|), _ => Idle);
      failure := None;
      calls := [];
      history := [];
      new;
      assert results[..] == seq(|items|, _ => None);
    }

    lemma Within()
      requires Valid()
      ensures |lanes| == laneCount && results.Length == |items| && |history| <= laneCount + |items|
      ensures forall l :: 0 <= l < |lanes| && lanes[l].Awaiting? ==> lanes[l].index < |items|
    {
      ReachableIsSound(items, worker, laneCount, history);
      StepsBounded(items, worker, laneCount, history);
    }

    /** The head of a lane's loop, up to its next await. */
    method Claim(lane: nat)
      requires lane < |lanes|
      modifies this`nextIndex, this`lanes, this`calls
      ensures State() == Claimed(old(State()), lane)
    {
      if nextIndex < results.Length {
        var currentIndex := nextIndex;
        nextIndex := nextIndex + 1;
        lanes := lanes[lane := Awaiting(currentIndex)];
        calls := calls + [Call(lane, currentIndex)];
      } else {
        lanes := lanes[lane := Finished];
      }
    }

    method StartLane(lane: nat)
      requires Valid() && Enabled(State(), Start(lane))
      modifies this
      ensures Valid() && history == old(history) + [Start(lane)] && results == old(results)
      ensures |lanes| == old(|lanes|) && !lanes[lane].Idle?
      ensures forall l :: 0 <= l < |lanes| && l != lane ==> lanes[l] == old(lanes[l])
    {
      ReachableIsSound(items, worker, laneCount, history);
      Claim(lane);
      history := history + [Start(lane)];
    }

    /** The awaited call settles: store its value and go round the loop, or reject the map. */
    method SettleLane(lane: nat)
      requires Valid() && Enabled(State(), Settle(lane))
      modifies this, results
      ensures Valid() && history == old(history) + [Settle(lane)] && results == old(results)
      ensures |lanes| == old(|lanes|) && !lanes[lane].Idle?
      ensures forall l :: 0 <= l < |lanes| && l != lane ==> lanes[l] == old(lanes[l])
    {
      ReachableIsSound(items, worker, laneCount, history);
      ghost var before := State();
      var index := lanes[lane].index;
      match worker(items[index], index) {
        case Value(v) =>
          results[index] := Some(v);
          assert State() == before.(results := before.results[index := Some(v)]);
          Claim(lane);
        case Rejection(error) =>
          lanes := lanes[lane := Failed(index)];
          if failure.None? { failure := Some(error); }
      }
      assert State() == Step(before, items, worker, Settle(lane));
      history := history + [Settle(lane)];
    }
  }

  /** Start every lane, then let any awaited call settle next until none is left. */
  method MapWithConcurrency<I, O>(items: seq<I>, concurrency: Number, worker: Worker<I, O>)
    returns (results: seq<Option<O>>, failure: Option<string>, ghost history: seq<Event>)
    ensures failure.None? <==> !Rejects(items, worker) || concurrency.NaN?
    ensures (failure.None? && IsSequentialMap(results, items, worker)) <==>
            (!Rejects(items, worker) && (!concurrency.NaN? || items == []))
    ensures failure.Some? ==> exists i :: 0 <= i < |items| && worker(items[i], i) == Rejection(failure.value)
    ensures |history| <= LaneCount(concurrency, |items|) + |items|
  {
    if |items| == 0 {
      results, failure, history := [], None, [];
      return;
    }
    var pool := new LanePool(items, concurrency, worker);
    pool.Within();
    var lane := 0;
    while lane < pool.laneCount
      invariant 0 <= lane <= pool.laneCount
      invariant pool.Valid() && fresh(pool) && fresh(pool.results)
      invariant |pool.lanes| == pool.laneCount
      invariant forall l :: lane <= l < pool.laneCount ==> pool.lanes[l].Idle?
      invariant forall l :: 0 <= l < lane ==> !pool.lanes[l].Idle?
    {
      pool.StartLane(lane);
      lane := lane + 1;
    }
    pool.Within();
    while exists l :: 0 <= l < |pool.lanes| && pool.lanes[l].Awaiting?
      invariant pool.Valid() && fresh(pool) && fresh(pool.results)
      invariant forall l :: 0 <= l < |pool.lanes| ==> !pool.lanes[l].Idle?
      decreases pool.laneCount + |items| - |pool.history|
    {
      var next :| 0 <= next < |pool.lanes| && pool.lanes[next].Awaiting?;
      pool.Within();
      pool.SettleLane(next);
      pool.Within();
    }
    results, failure, history := pool.results[..], pool.failure, pool.history;
    RefinesSequentialMap(items, concurrency, worker, history);
    StepsBounded(items, worker, pool.laneCount, history);
  }
}
