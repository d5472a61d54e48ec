/**
 * The single-flight refresh of the currency rates (src/services/currency-rates.ts): callers share
 * one refresh, a reset starts a new generation, and a refresh of an older generation must not
 * replace the snapshot. A refresh settles in one step and clears the flight in a later one.
 */
module CurrencyRates {
  import opened Common

  /** A rate that is not a finite number is None. */
  datatype Snapshot = Snapshot(date: string, rates: map<string, Option<real>>)

  predicate PositiveRate(s: Snapshot, key: string) {
    key in s.rates && s.rates[key].Some? && s.rates[key].value > 0.0
  }

  predicate Valid(s: Snapshot) {
    PositiveRate(s, "usdt") && PositiveRate(s, "usd") && PositiveRate(s, "eur")
    && PositiveRate(s, "btc") && PositiveRate(s, "eth")
  }

  const BOOTSTRAP := Snapshot("2026-03-21", map[
    "usdt" := Some(1.0), "usd" := Some(0.99996459), "eur" := Some(0.86266947),
    "btc" := Some(0.000014153253), "eth" := Some(0.00046463338)])

  /** What the fetch came to: a payload of the right JSON types, or an error or timeout. */
  datatype Outcome = Payload(snapshot: Snapshot) | Failure

  datatype Phase = Fetching | Settled | Cleared

  /** One refresh and the generation it captured when it started. */
  datatype Refresh = Refresh(generation: nat, phase: Phase)

  datatype State = State(
    snapshot: Snapshot, inFlight: Option<nat>, generation: nat, refreshes: map<nat, Refresh>, lastOk: bool)

  /** A call, whose refresh gets this id if it starts one; a settling fetch; its finally; a reset. */
  datatype Event = Call(id: nat) | Settle(id: nat, outcome: Outcome) | Clear(id: nat) | Reset

  function Initial(): State { State(BOOTSTRAP, None, 0, map[], true) }

  predicate Possible(s: State, e: Event) {
    match e
    case Call(id) => id !in s.refreshes
    case Settle(id, _) => id in s.refreshes && s.refreshes[id].phase == Fetching
    case Clear(id) => id in s.refreshes && s.refreshes[id].phase == Settled
    case Reset => true
  }

  predicate Succeeds(o: Outcome) { o.Payload? && Valid(o.snapshot) }

  function Step(s: State, e: Event): State
    requires Possible(s, e)
  {
    match e
    case Call(id) =>
      if s.inFlight.Some? then s
      else s.(inFlight := Some(id), refreshes := s.refreshes[id := Refresh(s.generation, Fetching)])
    case Settle(id, outcome) =>
      s.(snapshot := if Succeeds(outcome) && s.refreshes[id].generation == s.generation then outcome.snapshot else s.snapshot,
         refreshes := s.refreshes[id := s.refreshes[id].(phase := Settled)],
         lastOk := Succeeds(outcome))
    case Clear(id) =>
      s.(inFlight := if s.inFlight == Some(id) then None else s.inFlight,
         refreshes := s.refreshes[id := s.refreshes[id].(phase := Cleared)])
    case Reset => s.(snapshot := BOOTSTRAP, inFlight := None, generation := s.generation + 1, lastOk := true)
  }

  function Run(events: seq<Event>): Option<State> {
    if events == [] then Some(Initial())
    else
      match Run(events[..|events| - 1])
      case None => None
      case Some(s) => if Possible(s, events[|events| - 1]) then Some(Step(s, events[|events| - 1])) else None
  }

  // ---------------------------------------------------------------- single flight

  /** The flight, if any, is an uncleared refresh of this generation, and the only one of it. */
  ghost predicate SingleFlight(s: State) {
    && (s.inFlight.Some? ==> s.inFlight.value in s.refreshes && s.refreshes[s.inFlight.value].phase != Cleared)
    && (forall id :: id in s.refreshes && s.refreshes[id].generation == s.generation && s.refreshes[id].phase != Cleared
          <==> s.inFlight == Some(id))
    && (forall id :: id in s.refreshes ==> s.refreshes[id].generation <= s.generation)
    && Valid(s.snapshot)
  }

  lemma StepKeepsSingleFlight(s: State, e: Event)
    requires SingleFlight(s) && Possible(s, e)
    ensures SingleFlight(Step(s, e))
  {
  }

  /** In every run at most one refresh of the current generation is under way, and the snapshot is always valid. */
  lemma {:induction false} AlwaysSingleFlight(events: seq<Event>)
    requires Run(events).Some?
    ensures SingleFlight(Run(events).value)
  {
    if events == [] {
      BootstrapIsValid();
    } else {
      AlwaysSingleFlight(events[..|events| - 1]);
      StepKeepsSingleFlight(Run(events[..|events| - 1]).value, events[|events| - 1]);
    }
  }

  lemma BootstrapIsValid()
    ensures Valid(BOOTSTRAP)
  {
  }

  /** A snapshot is good if five currencies, whatever the others, have a rate that is a positive number. */
  lemma ValidIff(s: Snapshot)
    ensures Valid(s) <==>
            forall key :: key in {"usdt", "usd", "eur", "btc", "eth"} ==>
              key in s.rates && exists x :: s.rates[key] == Some(x) && 0.0 < x
  {
    if forall key :: key in {"usdt", "usd", "eur", "btc", "eth"} ==> key in s.rates && exists x :: s.rates[key] == Some(x) && 0.0 < x {
      forall key | key in {"usdt", "usd", "eur", "btc", "eth"}
        ensures PositiveRate(s, key)
      {
        var x :| s.rates[key] == Some(x) && 0.0 < x;
      }
      hide PositiveRate;
    }
    if Valid(s) {
      forall key | key in {"usdt", "usd", "eur", "btc", "eth"}
        ensures key in s.rates && exists x :: s.rates[key] == Some(x) && 0.0 < x
      {
        assert PositiveRate(s, key);
        assert s.rates[key] == Some(s.rates[key].value);
      }
    }
  }

  ghost predicate HasSettled(events: seq<Event>, id: nat) {
    exists e :: e in events && e.Settle? && e.id == id
  }

  /** A refresh is fetching until its fetch settles, and over once it has cleared. */
  lemma {:induction false} PhaseIs(events: seq<Event>, id: nat)
    requires Run(events).Some?
    ensures var refreshes := Run(events).value.refreshes;
            && (id !in refreshes ==> !HasSettled(events, id) && Clear(id) !in events)
            && (id in refreshes ==>
                  && (refreshes[id].phase == Fetching <==> !HasSettled(events, id))
                  && (refreshes[id].phase == Cleared <==> Clear(id) in events))
            && (Clear(id) in events ==> HasSettled(events, id))
  {
    if events != [] {
      var before, last := events[..|events| - 1], events[|events| - 1];
      PhaseIs(before, id);
      Snoc(events);
      hide Valid;
      assert HasSettled(events, id) <==> HasSettled(before, id) || (last.Settle? && last.id == id);
    }
  }

  /** The flight is the refresh started since the last reset that has not cleared, if there is one. */
  lemma FlightIs(events: seq<Event>, id: nat)
    requires Run(events).Some?
    ensures Run(events).value.inFlight == Some(id) <==> StartedSinceReset(events, id) && Clear(id) !in events
  {
    AlwaysSingleFlight(events);
    GenerationTracksReset(events, id);
    PhaseIs(events, id);
    hide StartedSinceReset, HasSettled, Run, Valid;
  }

  // ---------------------------------------------------------------- what the snapshot may be

  /** The refresh was started by a call after the last reset. */
  predicate StartedSinceReset(events: seq<Event>, id: nat) {
    if events == [] then false
    else
      var before, last := events[..|events| - 1], events[|events| - 1];
      if last.Reset? then false
      else
        (last == Call(id) && Run(before).Some? && Run(before).value.inFlight.None?) || StartedSinceReset(before, id)
  }

  /** The last good payload of a refresh started since the last reset, else the bootstrap snapshot. */
  function Expected(events: seq<Event>): Snapshot {
    if events == [] then BOOTSTRAP
    else
      var before, last := events[..|events| - 1], events[|events| - 1];
      if last.Reset? then BOOTSTRAP
      else if last.Settle? && Succeeds(last.outcome) && StartedSinceReset(before, last.id) then last.outcome.snapshot
      else Expected(before)
  }

  /** A refresh carries the current generation exactly when it was started since the last reset. */
  lemma {:induction false} GenerationTracksReset(events: seq<Event>, id: nat)
    requires Run(events).Some?
    ensures var s := Run(events).value;
            StartedSinceReset(events, id) <==> id in s.refreshes && s.refreshes[id].generation == s.generation
    ensures var s := Run(events).value;
            id in s.refreshes ==> s.refreshes[id].generation <= s.generation
  {
    if events != [] {
      GenerationTracksReset(events[..|events| - 1], id);
    }
  }

  /** A refresh started before a reset never changes the snapshot after it, whatever it fetches. */
  lemma {:induction false} SnapshotIsExpected(events: seq<Event>)
    requires Run(events).Some?
    ensures Run(events).value.snapshot == Expected(events)
  {
    if events != [] {
      var before, last := events[..|events| - 1], events[|events| - 1];
      SnapshotIsExpected(before);
      if last.Settle? { GenerationTracksReset(before, last.id); }
      hide StartedSinceReset, Valid;
    }
  }

  // ---------------------------------------------------------------- what the diagnostics report

  /** The last fetch to settle since the last reset, whenever its refresh started. */
  function LastSettled(events: seq<Event>): Option<Event> {
    if events == [] || events[|events| - 1].Reset? then None
    else if events[|events| - 1].Settle? then Some(events[|events| - 1])
    else LastSettled(events[..|events| - 1])
  }

  /** What the status says: how the last fetch to settle came out, and ok when none did. */
  function Reported(events: seq<Event>): bool {
    var last := LastSettled(events);
    last.Some? && last.value.Settle? ==> Succeeds(last.value.outcome)
  }

  /** What it should say: the same over the refreshes started since the last reset. */
  function ExpectedOk(events: seq<Event>): bool {
    if events == [] then true
    else
      var before, last := events[..|events| - 1], events[|events| - 1];
      if last.Reset? then true
      else if last.Settle? && StartedSinceReset(before, last.id) then Succeeds(last.outcome)
      else ExpectedOk(before)
  }

  lemma {:induction false} StatusIsReported(events: seq<Event>)
    requires Run(events).Some?
    ensures Run(events).value.lastOk == Reported(events)
  {
    if events != [] {
      hide Succeeds;
      StatusIsReported(events[..|events| - 1]);
    }
  }

  /** One settling fetch keeps a right status right exactly when its refresh is current or it says nothing new. */
  lemma SettleKeepsStatusIff(events: seq<Event>, id: nat, outcome: Outcome)
    requires Run(events).Some? && Possible(Run(events).value, Settle(id, outcome))
    requires Run(events).value.lastOk == ExpectedOk(events)
    ensures var s, more := Run(events).value, events + [Settle(id, outcome)];
            && Run(more).Some?
            && (Run(more).value.lastOk == ExpectedOk(more) <==>
                s.refreshes[id].generation == s.generation || Succeeds(outcome) == s.lastOk)
            && (s.refreshes[id].generation == s.generation <==> StartedSinceReset(events, id))
  {
    var more := events + [Settle(id, outcome)];
    assert more[..|more| - 1] == events;
    GenerationTracksReset(events, id);
    hide StartedSinceReset, Succeeds;
    RunNext(events, Settle(id, outcome));
  }

  /** A settled refresh stays known, so no later call starts it again. */
  lemma {:induction false} SettledIsKnown(events: seq<Event>)
    requires Run(events).Some? && LastSettled(events).Some?
    ensures LastSettled(events).value.Settle? && LastSettled(events).value.id in Run(events).value.refreshes
  {
    if !events[|events| - 1].Settle? {
      SettledIsKnown(events[..|events| - 1]);
    }
  }

  /** If the last fetch to settle belongs to a refresh started since the last reset, the status it left is the expected one. */
  lemma {:induction false} OwnSettleIsExpected(events: seq<Event>)
    requires Run(events).Some? && LastSettled(events).Some?
    requires LastSettled(events).value.Settle? && StartedSinceReset(events, LastSettled(events).value.id)
    ensures ExpectedOk(events) == Succeeds(LastSettled(events).value.outcome)
  {
    hide Succeeds;
    var before, last := events[..|events| - 1], events[|events| - 1];
    if !last.Settle? {
      SettledIsKnown(before);
      OwnSettleIsExpected(before);
    }
  }

  /**
   * In every run the status is right exactly when the last fetch to settle since the last reset,
   * if any, belongs to a refresh started since that reset, or came out as the expected one did.
   */
  lemma StatusIsRightIff(events: seq<Event>)
    requires Run(events).Some?
    ensures LastSettled(events).Some? ==> LastSettled(events).value.Settle?
    ensures Run(events).value.lastOk == ExpectedOk(events) <==>
            LastSettled(events).None? || StartedSinceReset(events, LastSettled(events).value.id)
            || Succeeds(LastSettled(events).value.outcome) == ExpectedOk(events)
  {
    StatusIsReported(events);
    if LastSettled(events).Some? {
      SettledIsKnown(events);
      if StartedSinceReset(events, LastSettled(events).value.id) { OwnSettleIsExpected(events); }
    } else {
      NoneSettledIsOk(events);
    }
  }

  lemma {:induction false} NoneSettledIsOk(events: seq<Event>)
    requires LastSettled(events).None?
    ensures ExpectedOk(events)
  {
    if events != [] && !events[|events| - 1].Reset? {
      NoneSettledIsOk(events[..|events| - 1]);
    }
  }

  /** An input on which it is wrong: a refresh from before a reset still reports its failure after it. */
  lemma OldFailureReportsAfterReset()
    ensures var events := [Call(0), Reset, Settle(0, Failure)];
            && Run(events).Some? && !Run(events).value.lastOk && ExpectedOk(events)
            && Run(events).value.snapshot == BOOTSTRAP && !StartedSinceReset(events, 0)
  {
    var e1, e2, e3 := [Call(0)], [Call(0), Reset], [Call(0), Reset, Settle(0, Failure)];
    assert e1[..0] == [] && e2[..1] == e1 && e3[..2] == e2;
    assert Run(e1) == Some(Step(Initial(), Call(0)));
    assert Run(e2).Some?;
    assert !StartedSinceReset(e2, 0) && ExpectedOk(e2);
  }

  // ---------------------------------------------------------------- the module's variables

  class Rates {
    var currentSnapshot: Snapshot
    var inFlightRefresh: Option<nat>
    var refreshGeneration: nat
    var refreshes: map<nat, Refresh>
    var lastRefreshOk: bool
    ghost var history: seq<Event>

    ghost function Contents(): State
      reads this
    {
      State(currentSnapshot, inFlightRefresh, refreshGeneration, refreshes, lastRefreshOk)
    }

    ghost predicate Consistent()
      reads this
    {
      Run(history) == Some(Contents())
    }

    constructor ()
      ensures Consistent() && history == []
    {
      currentSnapshot, inFlightRefresh, refreshGeneration, refreshes, lastRefreshOk := BOOTSTRAP, None, 0, map[], true;
      history := [];
    }

    /** The refresh a caller waits for: the one in flight, or a new one. */
    method RefreshOnce(id: nat) returns (joined: nat)
      requires Consistent() && Possible(Contents(), Call(id))
      modifies this
      ensures Consistent() && history == old(history) + [Call(id)]
      ensures inFlightRefresh == Some(joined)
      ensures joined == if old(inFlightRefresh).Some? then old(inFlightRefresh).value else id
    {
      RunNext(history, Call(id));
      history := history + [Call(id)];
      if inFlightRefresh.Some? { return inFlightRefresh.value; }
      refreshes := refreshes[id := Refresh(refreshGeneration, Fetching)];
      inFlightRefresh := Some(id);
      joined := id;
    }

    /** The fetch settles: the snapshot changes only for a refresh started since the last reset. */
    method SettleRefresh(id: nat, outcome: Outcome)
      requires Consistent() && Possible(Contents(), Settle(id, outcome))
      modifies this
      ensures Consistent() && history == old(history) + [Settle(id, outcome)]
      ensures currentSnapshot == if Succeeds(outcome) && StartedSinceReset(old(history), id) then outcome.snapshot
                                 else old(currentSnapshot)
      ensures lastRefreshOk == Succeeds(outcome)
      ensures inFlightRefresh == old(inFlightRefresh) && refreshGeneration == old(refreshGeneration)
      ensures old(lastRefreshOk) == ExpectedOk(old(history)) ==>
                (lastRefreshOk == ExpectedOk(history) <==>
                 StartedSinceReset(old(history), id) || Succeeds(outcome) == old(lastRefreshOk))
    {
      RunNext(history, Settle(id, outcome));
      GenerationTracksReset(history, id);
      if lastRefreshOk == ExpectedOk(history) { SettleKeepsStatusIff(history, id, outcome); }
      hide StartedSinceReset, Valid, Run;
      history := history + [Settle(id, outcome)];
      if Succeeds(outcome) {
        if refreshes[id].generation == refreshGeneration { currentSnapshot := outcome.snapshot; }
        lastRefreshOk := true;
      } else {
        lastRefreshOk := false;
      }
      refreshes := refreshes[id := refreshes[id].(phase := Settled)];
    }

    /** The finally of a refresh clears the flight only if it is still its own. */
    method ClearFlight(id: nat)
      requires Consistent() && Possible(Contents(), Clear(id))
      modifies this
      ensures Consistent() && history == old(history) + [Clear(id)]
      ensures inFlightRefresh == if old(inFlightRefresh) == Some(id) then None else old(inFlightRefresh)
    {
      RunNext(history, Clear(id));
      history := history + [Clear(id)];
      if inFlightRefresh == Some(id) { inFlightRefresh := None; }
      refreshes := refreshes[id := refreshes[id].(phase := Cleared)];
    }

    method ResetSnapshot()
      requires Consistent()
      modifies this
      ensures Consistent() && history == old(history) + [Reset]
      ensures currentSnapshot == BOOTSTRAP && inFlightRefresh.None?
    {
      RunNext(history, Reset);
      history := history + [Reset];
      currentSnapshot, inFlightRefresh, lastRefreshOk := BOOTSTRAP, None, true;
      refreshGeneration := refreshGeneration + 1;
    }
  }

  lemma RunNext(events: seq<Event>, e: Event)
    requires Run(events).Some? && Possible(Run(events).value, e)
    ensures Run(events + [e]) == Some(Step(Run(events).value, e))
  {
    hide Step;
    assert (events + [e])[..|events + [e]| - 1] == events;
  }
}
