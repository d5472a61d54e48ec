/**
 * The work leases and refresh revisions that several processes share through one SQLite file
 * (src/db/sqlite-coordination.ts). A table is a map from its primary key to a row. Every call
 * brings its own `now`: nothing here assumes that two processes agree on the time.
 */
module WorkLeases {
  import opened Common

  datatype LeaseRow = LeaseRow(
    owner: Option<string>,
    token: Option<string>,
    acquiredAt: Option<int>,
    expiresAt: Option<int>,
    recoveries: nat,
    skipped: nat,
    runs: nat,
    lastContentionAt: Option<int>,
    lastReleasedAt: Option<int>,
    updatedAt: int)

  datatype RefreshStatus = Committed | Degraded

  datatype RevisionRow = RevisionRow(
    revision: nat,
    status: RefreshStatus,
    activeOwner: Option<string>,
    startedAt: Option<int>,
    committedAt: Option<int>,
    failedAt: Option<int>,
    reason: Option<string>,
    tables: set<string>,
    updatedAt: int)

  datatype Lease = Lease(family: string, owner: string, token: string, acquiredAt: int, expiresAt: int)

  datatype Acquisition =
    | Acquired(lease: Lease)
    | Refused(family: string, activeOwner: Option<string>, activeExpiresAt: Option<int>)
    | Aborted // a statement threw: rolled back and rethrown

  /** Which statement of the acquiring transaction the database fails on, if any. */
  datatype Fault = NoFault | OnBegin | OnInsert | OnGrant | OnRead | OnContention | OnCommit

  datatype Event =
    | Acquire(family: string, now: int, owner: string, token: string, ttl: int, fault: Fault)
    | Release(lease: Lease, at: int)
    | Commit(family: string, at: int, tables: set<string>) // inside the refresh's own immediate transaction
    | FailRead(call: nat, family: string) // the SELECT of a failing call
    | FailWrite(call: nat, family: string, at: int, tables: set<string>, reason: string, failOwner: Option<string>) // its upsert

  /** What a failing call has read and not yet written back. */
  datatype Reading = Reading(family: string, revision: nat)

  /** The two tables, and the readings of the failing calls under way. */
  datatype Database = Database(
    leases: map<string, LeaseRow>, revisions: map<string, RevisionRow>, readings: map<nat, Reading>)

  const NOTHING := Database(map[], map[], map[])

  function BlankRow(now: int): LeaseRow {
    LeaseRow(None, None, None, None, 0, 0, 0, None, None, now)
  }

  /** The WHERE clause of the granting UPDATE. */
  predicate Free(row: LeaseRow, now: int) {
    row.owner.None? || row.expiresAt.None? || row.expiresAt.value <= now
  }

  /** The `active` field of the diagnostics. */
  predicate ActiveAt(row: LeaseRow, t: int) {
    row.owner.Some? && (row.expiresAt.None? || row.expiresAt.value > t)
  }

  function GrantRow(row: LeaseRow, e: Event): LeaseRow
    requires e.Acquire?
  {
    row.(owner := Some(e.owner), token := Some(e.token),
    acquiredAt := Some(e.now), expiresAt := Some(e.now + e.ttl),
    recoveries := if row.owner.Some? && row.expiresAt.Some? && row.expiresAt.value <= e.now
                  then row.recoveries + 1 else row.recoveries,
    runs := row.runs + 1, updatedAt := e.now)
  }

  function RowFor(leases: map<string, LeaseRow>, family: string, now: int): LeaseRow {
    if family in leases then leases[family] else BlankRow(now)
  }

  /** Whether the transaction of e reaches its COMMIT and commits. */
  predicate CommitsOn(leases: map<string, LeaseRow>, e: Event)
    requires e.Acquire?
  {
    e.fault.NoFault? || ((e.fault.OnRead? || e.fault.OnContention?) && Free(RowFor(leases, e.family, e.now), e.now))
  }

  function AcquireOutcome(leases: map<string, LeaseRow>, e: Event): Acquisition
    requires e.Acquire?
  {
    var row := RowFor(leases, e.family, e.now);
    if !CommitsOn(leases, e) then Aborted
    else if Free(row, e.now) then Acquired(Lease(e.family, e.owner, e.token, e.now, e.now + e.ttl))
    else Refused(e.family, row.owner, row.expiresAt)
  }

  function AcquireLeases(leases: map<string, LeaseRow>, e: Event): map<string, LeaseRow>
    requires e.Acquire?
  {
    var row := RowFor(leases, e.family, e.now);
    match AcquireOutcome(leases, e)
    case Aborted => leases
    case Acquired(_) => leases[e.family := GrantRow(row, e)]
    case Refused(_, _, _) =>
      leases[e.family := row.(skipped := row.skipped + 1, lastContentionAt := Some(e.now), updatedAt := e.now)]
  }

  /** The WHERE clause of the releasing UPDATE. */
  predicate Releases(leases: map<string, LeaseRow>, lease: Lease) {
    && lease.family in leases
    && leases[lease.family].owner == Some(lease.owner)
    && leases[lease.family].token == Some(lease.token)
  }

  function ReleaseLeases(leases: map<string, LeaseRow>, lease: Lease, at: int): map<string, LeaseRow> {
    if Releases(leases, lease) then
      leases[lease.family := leases[lease.family].(owner := None, token := None, acquiredAt := None,
      expiresAt := None, lastReleasedAt := Some(at), updatedAt := at)]
    else leases
  }

  /** current?.revision ?? 0 */
  function RevisionOf(revisions: map<string, RevisionRow>, family: string): nat {
    if family in revisions then revisions[family].revision else 0
  }

  function CommitRevisions(revisions: map<string, RevisionRow>, family: string, at: int, tables: set<string>)
    : map<string, RevisionRow>
  {
    revisions[family :=
      RevisionRow(RevisionOf(revisions, family) + 1, Committed, None, Some(at), Some(at), None, None, tables, at)]
  }

  /** The upsert of a failing call that read `current`. */
  function FailRevisions(revisions: map<string, RevisionRow>, current: nat, family: string, at: int, tables: set<string>,
                         reason: string, owner: Option<string>): map<string, RevisionRow> {
    revisions[family :=
      if family in revisions then
        revisions[family].(revision := current, status := Degraded, activeOwner := owner, failedAt := Some(at),
        reason := Some(reason), tables := tables, updatedAt := at)
      else
        RevisionRow(current, Degraded, owner, Some(at), None, Some(at), Some(reason), tables, at)]
  }

  /** A write follows a read of its own call. */
  predicate HasRead(db: Database, call: nat, family: string) {
    call in db.readings && db.readings[call].family == family
  }

  function Step(db: Database, e: Event): Database {
    match e
    case Acquire(_, _, _, _, _, _) => db.(leases := AcquireLeases(db.leases, e))
    case Release(lease, at) => db.(leases := ReleaseLeases(db.leases, lease, at))
    case Commit(family, at, tables) => db.(revisions := CommitRevisions(db.revisions, family, at, tables))
    case FailRead(call, family) =>
      db.(readings := db.readings[call := Reading(family, RevisionOf(db.revisions, family))])
    case FailWrite(call, family, at, tables, reason, owner) =>
      if !HasRead(db, call, family) then db
      else
        db.(revisions := FailRevisions(db.revisions, db.readings[call].revision, family, at, tables, reason, owner),
        readings := db.readings - {call})
  }

  /** The tables after any interleaving of calls by any number of processes. */
  function Run(es: seq<Event>): Database {
    if es == [] then NOTHING else Step(Run(es[..|es| - 1]), es[|es| - 1])
  }

  /** The two tables, changed statement by statement as the SQL does. */
  class CoordinationStore {
    var leases: map<string, LeaseRow>
    var revisions: map<string, RevisionRow>
    ghost var readings: map<nat, Reading>

    ghost function View(): Database
      reads this
    {
      Database(leases, revisions, readings)
    }

    constructor ()
      ensures View() == NOTHING
    {
      leases, revisions, readings := map[], map[], map[];
    }

    method AcquireLease(e: Event) returns (result: Acquisition)
      requires e.Acquire?
      modifies this`leases
      ensures View() == Step(old(View()), e)
      ensures result == AcquireOutcome(old(leases), e)
    {
      if e.fault == OnBegin { return Aborted; }
      var before := leases;
      if e.fault == OnInsert { leases := before; return Aborted; }
      if e.family !in leases {
        leases := leases[e.family := BlankRow(e.now)];
      }
      if e.fault == OnGrant { leases := before; return Aborted; }
      var row := leases[e.family];
      var granted := Free(row, e.now);
      if granted {
        leases := leases[e.family := GrantRow(row, e)];
        result := Acquired(Lease(e.family, e.owner, e.token, e.now, e.now + e.ttl));
      } else {
        if e.fault == OnRead { leases := before; return Aborted; }
        result := Refused(e.family, row.owner, row.expiresAt);
        if e.fault == OnContention { leases := before; return Aborted; }
        leases := leases[e.family :=
          row.(skipped := row.skipped + 1, lastContentionAt := Some(e.now), updatedAt := e.now)];
      }
      if e.fault == OnCommit { leases := before; return Aborted; }
    }

    method ReleaseLease(lease: Lease, at: int) returns (changed: bool)
      modifies this`leases
      ensures View() == Step(old(View()), Release(lease, at))
      ensures changed == Releases(old(leases), lease)
    {
      changed := lease.family in leases
        && leases[lease.family].owner == Some(lease.owner)
        && leases[lease.family].token == Some(lease.token);
      if changed {
        leases := leases[lease.family := leases[lease.family].(owner := None, token := None, acquiredAt := None,
          expiresAt := None, lastReleasedAt := Some(at), updatedAt := at)];
      }
    }

    method RecordCommitted(family: string, at: int, tables: set<string>) returns (revision: nat)
      modifies this`revisions
      ensures View() == Step(old(View()), Commit(family, at, tables))
      ensures revision == revisions[family].revision
    {
      revision := 1;
      if family in revisions { revision := revisions[family].revision + 1; }
      revisions := revisions[family := RevisionRow(revision, Committed, None, Some(at), Some(at), None, None, tables, at)];
    }

    /** The first statement of a failing call. */
    method ReadRevision(ghost call: nat, family: string) returns (current: nat)
      modifies this`readings
      ensures View() == Step(old(View()), FailRead(call, family))
      ensures HasRead(View(), call, family) && View().readings[call].revision == current
    {
      current := 0;
      if family in revisions { current := revisions[family].revision; }
      readings := readings[call := Reading(family, current)];
    }

    /** The second one, on what the first one read: any number of statements of other processes later. */
    method WriteFailed(ghost call: nat, current: nat, family: string, at: int, tables: set<string>, reason: string,
                       owner: Option<string>)
      requires HasRead(View(), call, family) && View().readings[call].revision == current
      modifies this`revisions, this`readings
      ensures View() == Step(old(View()), FailWrite(call, family, at, tables, reason, owner))
    {
      if family in revisions {
        revisions := revisions[family := revisions[family].(revision := current, status := Degraded, activeOwner := owner,
          failedAt := Some(at), reason := Some(reason), tables := tables, updatedAt := at)];
      } else {
        revisions := revisions[family :=
          RevisionRow(current, Degraded, owner, Some(at), None, Some(at), Some(reason), tables, at)];
      }
      readings := readings - {call};
    }

    /** The whole call where no other process writes in between: the revision stays. */
    method RecordFailed(ghost call: nat, family: string, at: int, tables: set<string>, reason: string, owner: Option<string>)
      modifies this`revisions, this`readings
      ensures View() ==
              Step(Step(old(View()), FailRead(call, family)), FailWrite(call, family, at, tables, reason, owner))
      ensures RevisionOf(revisions, family) == old(RevisionOf(revisions, family))
    {
      var current := ReadRevision(call, family);
      WriteFailed(call, current, family, at, tables, reason, owner);
    }
  }

  // ---------------------------------------------------------------- what a run did, read off its events

  predicate GrantedAt(es: seq<Event>, i: nat, family: string)
    requires i < |es|
  {
    es[i].Acquire? && es[i].family == family && AcquireOutcome(Run(es[..i]).leases, es[i]).Acquired?
  }

  predicate AttemptedAt(es: seq<Event>, i: nat, family: string)
    requires i < |es|
  {
    es[i].Acquire? && es[i].family == family && !AcquireOutcome(Run(es[..i]).leases, es[i]).Aborted?
  }

  predicate ReleasedAt(es: seq<Event>, i: nat, family: string)
    requires i < |es|
  {
    es[i].Release? && es[i].lease.family == family && Releases(Run(es[..i]).leases, es[i].lease)
  }

  function Attempts(es: seq<Event>, family: string): nat {
    if es == [] then 0
    else Attempts(es[..|es| - 1], family) + if AttemptedAt(es, |es| - 1, family) then 1 else 0
  }

  function SuccessfulReleases(es: seq<Event>, family: string): nat {
    if es == [] then 0
    else SuccessfulReleases(es[..|es| - 1], family) + if ReleasedAt(es, |es| - 1, family) then 1 else 0
  }

  /**
   * The reference: one lock per family, held by the position of the grant that holds it. A grant
   * takes it over, an effective release clears it, nothing else touches it.
   */
  function Holder(es: seq<Event>, family: string): (h: Option<nat>)
    ensures h.Some? ==> h.value < |es| && es[h.value].Acquire? && es[h.value].family == family
  {
    if es == [] then None
    else if GrantedAt(es, |es| - 1, family) then Some(|es| - 1)
    else if ReleasedAt(es, |es| - 1, family) then None
    else Holder(es[..|es| - 1], family)
  }

  /** The row shows exactly the grant that holds the lock, in all four lease columns. */
  predicate RowShows(row: LeaseRow, es: seq<Event>, holder: Option<nat>)
    requires holder.Some? ==> holder.value < |es| && es[holder.value].Acquire?
  {
    match holder
    case None => row.owner.None? && row.token.None? && row.acquiredAt.None? && row.expiresAt.None?
    case Some(g) =>
      && row.owner == Some(es[g].owner) && row.token == Some(es[g].token)
      && row.acquiredAt == Some(es[g].now) && row.expiresAt == Some(es[g].now + es[g].ttl)
  }

  lemma {:induction false} RowRefinesHolder(es: seq<Event>, family: string)
    ensures family in Run(es).leases ==> RowShows(Run(es).leases[family], es, Holder(es, family))
    ensures family !in Run(es).leases ==> Holder(es, family).None?
  {
    if es != [] {
      RowRefinesHolder(es[..|es| - 1], family);
    }
  }

  /** Runs less recoveries less the one held. */
  function Settled(leases: map<string, LeaseRow>, family: string): int {
    if family !in leases then 0
    else leases[family].runs - leases[family].recoveries - (if leases[family].owner.Some? then 1 else 0)
  }

  function Tried(leases: map<string, LeaseRow>, family: string): int {
    if family !in leases then 0 else leases[family].runs + leases[family].skipped
  }

  lemma AcquireCounts(leases: map<string, LeaseRow>, e: Event, family: string)
    requires e.Acquire? && (family in leases && leases[family].owner.Some? ==> leases[family].expiresAt.Some?)
    ensures var after := AcquireLeases(leases, e);
            && Settled(after, family) == Settled(leases, family)
            && Tried(after, family) == Tried(leases, family)
               + (if e.family == family && !AcquireOutcome(leases, e).Aborted? then 1 else 0)
            && (family in leases ==> family in after)
  {
    hide CommitsOn;
  }

  lemma ReleaseCounts(leases: map<string, LeaseRow>, lease: Lease, at: int, family: string)
    ensures var after := ReleaseLeases(leases, lease, at);
            && Settled(after, family) == Settled(leases, family)
               + (if lease.family == family && Releases(leases, lease) then 1 else 0)
            && Tried(after, family) == Tried(leases, family)
            && after.Keys == leases.Keys
  {
  }

  lemma {:induction false} RunCounts(es: seq<Event>, family: string)
    ensures Settled(Run(es).leases, family) == SuccessfulReleases(es, family)
    ensures Tried(Run(es).leases, family) == Attempts(es, family)
  {
    if es != [] {
      var shorter, last := es[..|es| - 1], es[|es| - 1];
      RunCounts(shorter, family);
      RowRefinesHolder(shorter, family);
      var leases := Run(shorter).leases;
      match last {
        case Acquire(_, _, _, _, _, _) => AcquireCounts(leases, last, family);
        case Release(lease, at) => ReleaseCounts(leases, lease, at, family);
        case _ =>
      }
      hide AcquireLeases, ReleaseLeases, AcquireOutcome, Releases, Settled, Tried, CommitRevisions, FailRevisions, Holder;
    }
  }

  lemma {:induction false} CountersBalance(es: seq<Event>, family: string)
    ensures family !in Run(es).leases ==> Attempts(es, family) == 0 && SuccessfulReleases(es, family) == 0
    ensures family in Run(es).leases ==>
              var row := Run(es).leases[family];
              && row.runs == SuccessfulReleases(es, family) + row.recoveries + (if row.owner.Some? then 1 else 0)
              && row.runs + row.skipped == Attempts(es, family)
  {
    RunCounts(es, family);
    hide Run;
  }

  /** The diagnostics call a lease active exactly when an acquire at that time would be refused. */
  lemma {:induction false} ActiveIffRefused(es: seq<Event>, e: Event)
    requires e.Acquire? && e.fault.NoFault? && e.family in Run(es).leases
    ensures ActiveAt(Run(es).leases[e.family], e.now) <==> AcquireOutcome(Run(es).leases, e).Refused?
    ensures ActiveAt(Run(es).leases[e.family], e.now) <==>
            Holder(es, e.family).Some? && e.now < es[Holder(es, e.family).value].now + es[Holder(es, e.family).value].ttl
  {
    RowRefinesHolder(es, e.family);
  }

  lemma PrefixStep(es: seq<Event>, n: nat)
    requires n < |es|
    ensures es[..n + 1][..n] == es[..n] && es[..n + 1][n] == es[n]
  {
  }

  /** How the lock moves over one event of a longer run. */
  lemma HolderStep(es: seq<Event>, n: nat, family: string)
    requires n < |es|
    ensures Holder(es[..n + 1], family) ==
            if GrantedAt(es, n, family) then Some(n)
            else if ReleasedAt(es, n, family) then None
            else Holder(es[..n], family)
  {
    PrefixStep(es, n);
  }

  /** A release took the lease of the grant at i: same family, owner and token. */
  predicate OwnRelease(es: seq<Event>, i: nat, k: nat)
    requires i < |es| && k < |es| && es[i].Acquire?
  {
    && ReleasedAt(es, k, es[i].family)
    && es[k].lease.owner == es[i].owner && es[k].lease.token == es[i].token
  }

  lemma ReleaseByHolder(es: seq<Event>, family: string, i: nat, k: nat)
    requires i < k < |es| && GrantedAt(es, i, family) && Holder(es[..k], family) == Some(i) && ReleasedAt(es, k, family)
    ensures OwnRelease(es, i, k)
  {
    hide Run, AcquireOutcome, Holder;
    RowRefinesHolder(es[..k], family);
  }

  lemma {:induction false} HeldUntilTouched(es: seq<Event>, family: string, i: nat, n: nat)
    requires i < n <= |es| && GrantedAt(es, i, family)
    requires forall k :: i < k < n ==> !GrantedAt(es, k, family) && !OwnRelease(es, i, k)
    ensures Holder(es[..n], family) == Some(i)
    decreases n
  {
    hide Run, Holder, GrantedAt, ReleasedAt, OwnRelease;
    if n == i + 1 {
      HolderStep(es, i, family);
    } else {
      HeldUntilTouched(es, family, i, n - 1);
      HolderStep(es, n - 1, family);
      if ReleasedAt(es, n - 1, family) { ReleaseByHolder(es, family, i, n - 1); }
    }
  }

  /**
   * Safety: between two grants on one family, the first holder gave its own lease back, or a
   * later grant arrived with a clock at or past the first one's expiry.
   */
  lemma {:induction false} GrantsAreSeparated(es: seq<Event>, family: string, i: nat, j: nat)
    requires i < j < |es| && GrantedAt(es, i, family) && GrantedAt(es, j, family)
    ensures exists k :: i < k <= j &&
              (OwnRelease(es, i, k) || (GrantedAt(es, k, family) && es[i].now + es[i].ttl <= es[k].now))
    decreases j
  {
    if k :| i < k < j && OwnRelease(es, i, k) {
    } else if k :| i < k < j && GrantedAt(es, k, family) {
      GrantsAreSeparated(es, family, i, k);
    } else {
      HeldUntilTouched(es, family, i, j);
      RowRefinesHolder(es[..j], family);
      assert GrantedAt(es, j, family) && es[i].now + es[i].ttl <= es[j].now;
    }
  }

  /** Nobody reuses a token on the family. */
  predicate FreshTokens(es: seq<Event>, family: string) {
    forall p, q :: 0 <= p < q < |es| && es[p].Acquire? && es[q].Acquire? && es[p].family == es[q].family == family
                   ==> es[p].token != es[q].token
  }

  lemma {:induction false} HolderSince(es: seq<Event>, family: string, n: nat)
    requires n <= |es| && Holder(es[..n], family).Some?
    ensures var g := Holder(es[..n], family).value;
            GrantedAt(es, g, family) && forall k :: g < k < n ==> !GrantedAt(es, k, family) && !ReleasedAt(es, k, family)
    decreases n
  {
    hide Run, Holder, GrantedAt, ReleasedAt;
    if n > 0 {
      HolderStep(es, n - 1, family);
      if !GrantedAt(es, n - 1, family) {
        HolderSince(es, family, n - 1);
      }
    }
  }

  /**
   * With fresh tokens, the lease handed out at i can be released at n exactly when nothing was
   * granted or released on the family since. In particular a stale holder's release is refused.
   */
  lemma ReleaseSucceedsIffStillHolder(es: seq<Event>, family: string, i: nat, n: nat, lease: Lease)
    requires i < n <= |es| && GrantedAt(es, i, family) && FreshTokens(es, family)
    requires AcquireOutcome(Run(es[..i]).leases, es[i]) == Acquired(lease)
    ensures Releases(Run(es[..n]).leases, lease) <==>
            forall k :: i < k < n ==> !GrantedAt(es, k, family) && !ReleasedAt(es, k, family)
    ensures !Releases(Run(es[..n]).leases, lease) ==> ReleaseLeases(Run(es[..n]).leases, lease, 0) == Run(es[..n]).leases
  {
    RowRefinesHolder(es[..n], family);
    if forall k :: i < k < n ==> !GrantedAt(es, k, family) && !ReleasedAt(es, k, family) {
      HeldUntilTouched(es, family, i, n);
    } else if Releases(Run(es[..n]).leases, lease) {
      HolderSince(es, family, n);
      assert false;
    }
  }

  // ---------------------------------------------------------------- the lock, from the events alone

  /** The statement the fault is on is reached: reading and counting the contention are left to a refusal. */
  predicate Reached(fault: Fault, free: bool) {
    match fault
    case NoFault => false
    case OnRead => !free
    case OnContention => !free
    case _ => true
  }

  /** What an event of a run does to the lock of a family. */
  datatype Effect = Nothing | Grants | TakesOver | Refuses | Frees

  predicate Expired(e: Event, now: int)
    requires e.Acquire?
  {
    e.now + e.ttl <= now
  }

  function EffectOf(es: seq<Event>, lock: Option<nat>, e: Event, family: string): Effect
    requires lock.Some? ==> lock.value < |es| && es[lock.value].Acquire?
  {
    match e
    case Acquire(f, now, _, _, _, fault) =>
      var free := lock.None? || Expired(es[lock.value], now);
      if f != family || Reached(fault, free) then Nothing
      else if lock.None? then Grants
      else if free then TakesOver
      else Refuses
    case Release(lease, _) =>
      if lease.family == family && lock.Some? && es[lock.value].owner == lease.owner && es[lock.value].token == lease.token
      then Frees else Nothing
    case _ => Nothing
  }

  /** The position of the grant that has the lock: taken when free or expired, freed with its own owner and token. */
  function Lock(es: seq<Event>, family: string): (lock: Option<nat>)
    ensures lock.Some? ==> lock.value < |es| && es[lock.value].Acquire? && es[lock.value].family == family
  {
    if es == [] then None
    else
      var before := Lock(es[..|es| - 1], family);
      match EffectOf(es[..|es| - 1], before, es[|es| - 1], family)
      case Grants => Some(|es| - 1)
      case TakesOver => Some(|es| - 1)
      case Frees => None
      case _ => before
  }

  /** What the last event of a run did to the lock. */
  function LastEffect(es: seq<Event>, family: string): Effect
    requires es != []
  {
    EffectOf(es[..|es| - 1], Lock(es[..|es| - 1], family), es[|es| - 1], family)
  }

  /** When an acquire is granted, refused or aborted: a fault aborts exactly when its statement is reached. */
  function Decision(es: seq<Event>, e: Event): Acquisition
    requires e.Acquire?
  {
    var lock := Lock(es, e.family);
    var free := lock.None? || Expired(es[lock.value], e.now);
    if Reached(e.fault, free) then Aborted
    else if free then Acquired(Lease(e.family, e.owner, e.token, e.now, e.now + e.ttl))
    else Refused(e.family, Some(es[lock.value].owner), Some(es[lock.value].now + es[lock.value].ttl))
  }

  lemma DecidedByRow(leases: map<string, LeaseRow>, e: Event)
    requires e.Acquire?
    ensures var row := RowFor(leases, e.family, e.now);
            AcquireOutcome(leases, e) ==
            if Reached(e.fault, Free(row, e.now)) then Aborted
            else if Free(row, e.now) then Acquired(Lease(e.family, e.owner, e.token, e.now, e.now + e.ttl))
            else Refused(e.family, row.owner, row.expiresAt)
  {
    hide RowFor, Free;
  }

  lemma DecidedByHolder(es: seq<Event>, e: Event)
    requires e.Acquire? && Holder(es, e.family) == Lock(es, e.family)
    ensures AcquireOutcome(Run(es).leases, e) == Decision(es, e)
  {
    hide Run, Holder, Lock, AcquireOutcome, Reached;
    RowRefinesHolder(es, e.family);
    DecidedByRow(Run(es).leases, e);
  }

  lemma ReleasedByHolder(es: seq<Event>, lease: Lease)
    requires Holder(es, lease.family) == Lock(es, lease.family)
    ensures Releases(Run(es).leases, lease) <==>
            var lock := Lock(es, lease.family);
            lock.Some? && es[lock.value].owner == lease.owner && es[lock.value].token == lease.token
  {
    RowRefinesHolder(es, lease.family);
    hide Run, Holder, Lock;
  }

  lemma {:induction false} HolderIsLock(es: seq<Event>, family: string)
    ensures Holder(es, family) == Lock(es, family)
  {
    if es != [] {
      var shorter, last := es[..|es| - 1], es[|es| - 1];
      HolderIsLock(shorter, family);
      hide Run, AcquireOutcome, Releases;
      match last {
        case Acquire(f, _, _, _, _, _) => if f == family { DecidedByHolder(shorter, last); }
        case Release(lease, _) => if lease.family == family { ReleasedByHolder(shorter, lease); }
        case _ =>
      }
    }
  }

  /**
   * In every run an acquire is granted exactly when no grant has the lock or the one that has it is
   * past its expiry, and refused with that grant's owner and expiry otherwise; it aborts exactly on
   * a fault of a statement it reaches, and then changes nothing.
   */
  lemma AcquireDecides(es: seq<Event>, e: Event)
    requires e.Acquire?
    ensures AcquireOutcome(Run(es).leases, e) == Decision(es, e)
    ensures Decision(es, e).Aborted? ==> Run(es + [e]) == Run(es)
  {
    HolderIsLock(es, e.family);
    DecidedByHolder(es, e);
    assert (es + [e])[..|es|] == es;
    hide Decision, Holder, Lock, AcquireOutcome;
  }

  function EffectCount(es: seq<Event>, family: string, effect: Effect): nat {
    if es == [] then 0
    else EffectCount(es[..|es| - 1], family, effect) + if LastEffect(es, family) == effect then 1 else 0
  }

  function TimeOf(e: Event): int {
    match e
    case Acquire(_, now, _, _, _, _) => now
    case Release(_, at) => at
    case Commit(_, at, _) => at
    case FailRead(_, _) => 0
    case FailWrite(_, _, at, _, _, _) => at
  }

  /** When the lock last saw one of these effects. */
  function LastTime(es: seq<Event>, family: string, effects: set<Effect>): Option<int> {
    if es == [] then None
    else if LastEffect(es, family) in effects then Some(TimeOf(es[|es| - 1]))
    else LastTime(es[..|es| - 1], family, effects)
  }

  lemma LeasesFollowEffect(es: seq<Event>, family: string)
    requires es != []
    ensures var before, after := Run(es[..|es| - 1]).leases, Run(es).leases;
            var at, blank := TimeOf(es[|es| - 1]), RowFor(before, family, TimeOf(es[|es| - 1]));
            match LastEffect(es, family) {
              case Nothing => (family in after <==> family in before) && (family in before ==> after[family] == before[family])
              case Frees => family in before && family in after && FreedRow(before[family], after[family], at)
              case Refuses => family in after && RefusedRow(blank, after[family], at)
              case Grants => family in after && GrantedRow(blank, after[family], es[|es| - 1], 0)
              case TakesOver => family in after && GrantedRow(blank, after[family], es[|es| - 1], 1)
            }
  {
    var shorter, last := es[..|es| - 1], es[|es| - 1];
    HolderIsLock(shorter, family);
    RowRefinesHolder(shorter, family);
    match last {
      case Acquire(f, _, _, _, _, _) => if f == family { DecidedByHolder(shorter, last); }
      case Release(lease, _) => if lease.family == family { ReleasedByHolder(shorter, lease); }
      case _ =>
    }
    hide Holder, Lock, CommitRevisions, FailRevisions, Releases, CommitsOn;
  }

  predicate FreedRow(was: LeaseRow, now: LeaseRow, at: int) {
    && now.owner.None? && now.token.None? && now.acquiredAt.None? && now.expiresAt.None?
    && now.recoveries == was.recoveries && now.skipped == was.skipped && now.runs == was.runs
    && now.lastContentionAt == was.lastContentionAt && now.lastReleasedAt == Some(at) && now.updatedAt == at
  }

  predicate RefusedRow(was: LeaseRow, now: LeaseRow, at: int) {
    && now.owner == was.owner && now.token == was.token && now.acquiredAt == was.acquiredAt && now.expiresAt == was.expiresAt
    && now.recoveries == was.recoveries && now.skipped == was.skipped + 1 && now.runs == was.runs
    && now.lastContentionAt == Some(at) && now.lastReleasedAt == was.lastReleasedAt && now.updatedAt == at
  }

  predicate GrantedRow(was: LeaseRow, now: LeaseRow, e: Event, recovered: nat)
    requires e.Acquire?
  {
    && now.owner == Some(e.owner) && now.token == Some(e.token)
    && now.acquiredAt == Some(e.now) && now.expiresAt == Some(e.now + e.ttl)
    && now.recoveries == was.recoveries + recovered && now.skipped == was.skipped && now.runs == was.runs + 1
    && now.lastContentionAt == was.lastContentionAt && now.lastReleasedAt == was.lastReleasedAt && now.updatedAt == e.now
  }

  /** Every counter and time of a lease row, read off the events: recoveries are the grants that took over an expired one. */
  lemma {:induction false} RowTellsHistory(es: seq<Event>, family: string)
    ensures family in Run(es).leases <==> LastTime(es, family, {Grants, TakesOver, Refuses}).Some?
    ensures family !in Run(es).leases ==>
              && Lock(es, family).None? && LastTime(es, family, {Refuses}).None? && LastTime(es, family, {Frees}).None?
              && (forall effect :: effect != Nothing ==> EffectCount(es, family, effect) == 0)
    ensures family in Run(es).leases ==>
              var row := Run(es).leases[family];
              && row.recoveries == EffectCount(es, family, TakesOver)
              && row.runs == EffectCount(es, family, Grants) + EffectCount(es, family, TakesOver)
              && row.skipped == EffectCount(es, family, Refuses)
              && row.lastContentionAt == LastTime(es, family, {Refuses})
              && row.lastReleasedAt == LastTime(es, family, {Frees})
              && Some(row.updatedAt) == LastTime(es, family, {Grants, TakesOver, Refuses, Frees})
  {
    if es != [] {
      RowTellsHistory(es[..|es| - 1], family);
      LeasesFollowEffect(es, family);
      hide Run, Lock, LastEffect;
    }
  }

  // ---------------------------------------------------------------- refresh revisions

  function Commits(es: seq<Event>, family: string): nat {
    if es == [] then 0
    else Commits(es[..|es| - 1], family) + if es[|es| - 1].Commit? && es[|es| - 1].family == family then 1 else 0
  }

  function LastCommit(es: seq<Event>, family: string): Option<Event> {
    if es == [] then None
    else if es[|es| - 1].Commit? && es[|es| - 1].family == family then Some(es[|es| - 1])
    else LastCommit(es[..|es| - 1], family)
  }

  /** A failing call's write took effect at w. */
  predicate FailedAt(es: seq<Event>, w: nat, family: string)
    requires w < |es|
  {
    es[w].FailWrite? && es[w].family == family && HasRead(Run(es[..w]), es[w].call, family)
  }

  predicate LastRefreshFailed(es: seq<Event>, family: string) {
    if es == [] then false
    else if es[|es| - 1].Commit? && es[|es| - 1].family == family then false
    else FailedAt(es, |es| - 1, family) || LastRefreshFailed(es[..|es| - 1], family)
  }

  /** The last refresh recorded of a family: a commit, or a failing call's write that took effect. */
  function LastRefresh(es: seq<Event>, family: string): (e: Option<Event>)
    ensures e.Some? ==> e.value.Commit? || e.value.FailWrite?
    ensures e.Some? && e.value.FailWrite? <==> LastRefreshFailed(es, family)
  {
    if es == [] then None
    else if (es[|es| - 1].Commit? && es[|es| - 1].family == family) || FailedAt(es, |es| - 1, family) then Some(es[|es| - 1])
    else LastRefresh(es[..|es| - 1], family)
  }

  /** When the row was opened, if no commit reopened it since. */
  function FirstFailure(es: seq<Event>, family: string): Option<int> {
    if es == [] then None
    else
      var before := FirstFailure(es[..|es| - 1], family);
      if before.None? && FailedAt(es, |es| - 1, family) then Some(es[|es| - 1].at) else before
  }

  /** The columns of the row that the last refresh wrote. */
  predicate ShowsRefresh(row: RevisionRow, e: Event)
    requires e.Commit? || e.FailWrite?
  {
    && row.tables == e.tables && row.updatedAt == e.at
    && row.status == (if e.Commit? then Committed else Degraded)
    && row.activeOwner == (if e.Commit? then None else e.failOwner)
    && row.failedAt == (if e.Commit? then None else Some(e.at))
    && row.reason == (if e.Commit? then None else Some(e.reason))
  }

  /** Whatever interleaves, the row shows the last refresh and the time of the last commit. */
  lemma {:induction false} RowShowsLastRefresh(es: seq<Event>, family: string)
    ensures family in Run(es).revisions <==> LastRefresh(es, family).Some?
    ensures LastCommit(es, family).Some? ==> LastCommit(es, family).value.Commit?
    ensures family !in Run(es).revisions ==> LastCommit(es, family).None? && FirstFailure(es, family).None?
    ensures family in Run(es).revisions ==>
              var row, commit := Run(es).revisions[family], LastCommit(es, family);
              && ShowsRefresh(row, LastRefresh(es, family).value) && row.startedAt.Some?
              && row.committedAt == (if commit.Some? then Some(commit.value.at) else None)
              && row.startedAt == (if commit.Some? then row.committedAt else FirstFailure(es, family))
  {
    if es != [] {
      hide AcquireLeases, ReleaseLeases;
      RowShowsLastRefresh(es[..|es| - 1], family);
    }
  }

  /** Where the call under way last read, if it has not written since. */
  function ReadOf(es: seq<Event>, call: nat): (r: Option<nat>)
    ensures r.Some? ==> r.value < |es| && es[r.value].FailRead? && es[r.value].call == call
  {
    if es == [] then None
    else
      var last := es[|es| - 1];
      if last.FailRead? && last.call == call then Some(|es| - 1)
      else if last.FailWrite? && last.call == call && HasRead(Run(es[..|es| - 1]), call, last.family) then None
      else ReadOf(es[..|es| - 1], call)
  }

  /** A reading is the revision at the moment it was read. */
  lemma {:induction false} ReadingIs(es: seq<Event>, call: nat)
    ensures call in Run(es).readings <==> ReadOf(es, call).Some?
    ensures ReadOf(es, call).Some? ==>
              var r := ReadOf(es, call).value;
              Run(es).readings[call] == Reading(es[r].family, RevisionOf(Run(es[..r]).revisions, es[r].family))
  {
    if es != [] {
      hide AcquireLeases, ReleaseLeases, CommitRevisions, FailRevisions, RevisionOf;
      var shorter := es[..|es| - 1];
      ReadingIs(shorter, call);
      if ReadOf(shorter, call).Some? {
        assert es[..ReadOf(shorter, call).value] == shorter[..ReadOf(shorter, call).value];
      }
    }
  }

  /** The revision is the number of commits. */
  predicate CountRight(es: seq<Event>, family: string) {
    RevisionOf(Run(es).revisions, family) == Commits(es, family)
  }

  /** No commit on the family since the failing call that writes at w read. */
  predicate WritesInTime(es: seq<Event>, w: nat, family: string)
    requires w < |es| && FailedAt(es, w, family)
  {
    ReadOf(es[..w], es[w].call).Some? &&
    forall k :: ReadOf(es[..w], es[w].call).value < k < w ==> !(es[k].Commit? && es[k].family == family)
  }

  lemma CommitsNext(es: seq<Event>, n: nat, family: string)
    requires n < |es|
    ensures Commits(es[..n + 1], family) == Commits(es[..n], family) + if es[n].Commit? && es[n].family == family then 1 else 0
  {
    PrefixStep(es, n);
  }

  /** The count stays over a stretch exactly when the stretch holds no commit. */
  lemma {:induction false} CommitsSince(es: seq<Event>, r: nat, n: nat, family: string)
    requires r <= n <= |es|
    ensures Commits(es[..r], family) <= Commits(es[..n], family)
    ensures Commits(es[..r], family) == Commits(es[..n], family) <==>
            forall k :: r <= k < n ==> !(es[k].Commit? && es[k].family == family)
    decreases n
  {
    hide Commits;
    if r < n {
      CommitsSince(es, r, n - 1, family);
      CommitsNext(es, n - 1, family);
    }
  }

  lemma RevisionNext(es: seq<Event>, n: nat, family: string)
    requires n < |es|
    ensures RevisionOf(Run(es[..n + 1]).revisions, family) ==
            if es[n].Commit? && es[n].family == family then RevisionOf(Run(es[..n]).revisions, family) + 1
            else if FailedAt(es, n, family) then Run(es[..n]).readings[es[n].call].revision
            else RevisionOf(Run(es[..n]).revisions, family)
  {
    hide AcquireLeases, ReleaseLeases;
    PrefixStep(es, n);
  }

  /** A failing write leaves a right count right exactly when no commit came between its read and its write. */
  lemma FailureKeepsCountIff(es: seq<Event>, w: nat, family: string)
    requires w < |es| && FailedAt(es, w, family)
    requires forall n :: 0 <= n <= w ==> CountRight(es[..n], family)
    ensures CountRight(es[..w + 1], family) <==> WritesInTime(es, w, family)
  {
    ReadingIs(es[..w], es[w].call);
    RevisionNext(es, w, family);
    CommitsNext(es, w, family);
    var r := ReadOf(es[..w], es[w].call).value;
    assert es[..w][..r] == es[..r] && es[..w][r] == es[r];
    hide Run, Commits, RevisionOf, ReadOf;
    CommitsSince(es, r, w, family);
    assert CountRight(es[..r], family);
  }

  /**
   * The revision counts the commits at every moment of a run exactly when every failing call of the
   * run writes before the next commit after its read.
   */
  lemma RevisionCountsCommitsIff(es: seq<Event>, family: string)
    ensures (forall n :: 0 <= n <= |es| ==> CountRight(es[..n], family)) <==>
            (forall w :: 0 <= w < |es| && FailedAt(es, w, family) ==> WritesInTime(es, w, family))
  {
    if forall n :: 0 <= n <= |es| ==> CountRight(es[..n], family) {
      forall w | 0 <= w < |es| && FailedAt(es, w, family)
        ensures WritesInTime(es, w, family)
      {
        FailureKeepsCountIff(es, w, family);
        assert CountRight(es[..w + 1], family);
      }
    }
    if forall w :: 0 <= w < |es| && FailedAt(es, w, family) ==> WritesInTime(es, w, family) {
      CountsUpTo(es, |es|, family);
    }
  }

  lemma {:induction false} CountsUpTo(es: seq<Event>, m: nat, family: string)
    requires m <= |es|
    requires forall w :: 0 <= w < |es| && FailedAt(es, w, family) ==> WritesInTime(es, w, family)
    ensures forall n :: 0 <= n <= m ==> CountRight(es[..n], family)
    decreases m
  {
    if m == 0 {
      assert es[..0] == [];
    } else {
      CountsUpTo(es, m - 1, family);
      hide CountRight, WritesInTime, FailedAt;
      if FailedAt(es, m - 1, family) {
        FailureKeepsCountIff(es, m - 1, family);
      } else {
        OthersKeepCount(es, m - 1, family);
      }
    }
  }

  lemma OthersKeepCount(es: seq<Event>, n: nat, family: string)
    requires n < |es| && !FailedAt(es, n, family) && CountRight(es[..n], family)
    ensures CountRight(es[..n + 1], family)
  {
    RevisionNext(es, n, family);
    CommitsNext(es, n, family);
    hide Run, Commits, RevisionOf;
  }

  /** In no run is the revision ahead of the commits. */
  lemma {:induction false} RevisionNeverAhead(es: seq<Event>, family: string)
    ensures RevisionOf(Run(es).revisions, family) <= Commits(es, family)
    ensures forall call :: HasRead(Run(es), call, family) ==> Run(es).readings[call].revision <= Commits(es, family)
  {
    if es != [] {
      hide AcquireLeases, ReleaseLeases;
      RevisionNeverAhead(es[..|es| - 1], family);
    }
  }

  /** The input on which the count is lost: a commit between a failing call's read and its write. */
  lemma StaleFailureLosesCommit(family: string, at: int)
    ensures var es := [FailRead(0, family), Commit(family, at, {}), FailWrite(0, family, at, {}, "", None)];
            && FailedAt(es, 2, family) && !WritesInTime(es, 2, family)
            && Commits(es, family) == 1 && RevisionOf(Run(es).revisions, family) == 0
  {
    var es := [FailRead(0, family), Commit(family, at, {}), FailWrite(0, family, at, {}, "", None)];
    var none: seq<Event> := [];
    assert es[..0] == none;
    CommitsNext(es, 0, family);
    CommitsNext(es, 1, family);
    CommitsNext(es, 2, family);
    PrefixStep(es, 0);
    PrefixStep(es, 1);
    PrefixStep(es, 2);
    assert Run(es[..1]) == Step(NOTHING, es[0]);
    assert Run(es[..2]) == Step(Run(es[..1]), es[1]);
    assert Run(es[..3]) == Step(Run(es[..2]), es[2]);
    assert es[..3] == es;
    assert ReadOf(es[..1], 0) == Some(0);
    assert ReadOf(es[..2], 0) == Some(0);
  }
}
