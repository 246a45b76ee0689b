/**
The event log determines the tables: replaying a job's events from nothing gives its version, lease,
open handoff and operation statuses.  Replay never looks at a table.
*/
module HarnessLog {
  import opened Prelude
  import opened HarnessTables

  /** lease: the generation of the current lease; handoff: the open one, and whether it is starting. */
  datatype View = View(
    version: nat, generation: nat, lease: Option<nat>, handoff: Option<(HandoffId, bool)>,
    operations: map<OperationId, Status>)

  const BLANK := View(0, 0, None, None, map[])

  function Observe(v: View, what: What): View {
    match what
    case JobCreated => View(1, 0, None, None, map[])
    case LeaseExpired(_, _) => v.(lease := None)
    case LeaseReleased(_) => v.(lease := None)
    case LeaseRenewed(_) => v
    case LeaseAcquired(_, _, g) => v.(version := v.version + 1, generation := g, lease := Some(g))
    case JobUpdated(_) => v.(version := v.version + 1)
    case HandoffCreated(h, _) => v.(version := v.version + 1, lease := None, handoff := Some((h, false)))
    case HandoffClaimed(_, _, g) => v.(version := v.version + 1, generation := g, lease := Some(g), handoff := None)
    case HandoffExpired(_) => v.(handoff := None)
    case HandoffStarting(h, _) => v.(handoff := Some((h, true)))
    case HandoffStartExpired(h) => v.(handoff := Some((h, false)))
    case HandoffStartReleased(h, _) => v.(handoff := Some((h, false)))
    case OperationStarted(o, _) => v.(operations := v.operations[o := OpStarted])
    case OperationFinished(o, _, after) => v.(operations := v.operations[o := after])
    case OperationReconciled(o, _, after) => v.(operations := v.operations[o := after])
  }

  function Replay(events: seq<Event>, j: JobId): View {
    if events == [] then BLANK
    else
      var v := Replay(events[..|events| - 1], j);
      var e := events[|events| - 1];
      if e.job == j then Observe(v, e.what) else v
  }

  /** lease_acquired plus handoff_claimed. */
  function Grants(events: seq<Event>, j: JobId): nat {
    if events == [] then 0
    else
      var e := events[|events| - 1];
      Grants(events[..|events| - 1], j)
      + if e.job == j && (e.what.LeaseAcquired? || e.what.HandoffClaimed?) then 1 else 0
  }

  /** lease_acquired, job_updated, handoff_created and handoff_claimed. */
  function Bumps(events: seq<Event>, j: JobId): nat {
    if events == [] then 0
    else
      var e := events[|events| - 1];
      Bumps(events[..|events| - 1], j)
      + if e.job == j
           && (e.what.LeaseAcquired? || e.what.HandoffClaimed? || e.what.JobUpdated? || e.what.HandoffCreated?)
        then 1 else 0
  }

  predicate LeaseAgrees(v: View, db: Db, j: JobId)
    requires j in db.jobs
  {
    && v.version == db.jobs[j].version && v.generation == db.jobs[j].generation
    && v.lease == if j in db.leases then Some(db.leases[j].generation) else None
  }

  ghost predicate HandoffAgrees(v: View, db: Db, j: JobId) {
    match v.handoff
    case None => !HasOpen(db, j)
    case Some((h, starting)) =>
      && h in db.handoffs && db.handoffs[h].job == j
      && db.handoffs[h].state == if starting then Starting else Pending
  }

  ghost predicate OperationsAgree(v: View, db: Db, j: JobId) {
    && (forall o :: o in v.operations <==> o in db.operations && db.operations[o].job == j)
    && (forall o :: o in v.operations ==> v.operations[o] == db.operations[o].status)
  }

  ghost predicate Agrees(v: View, db: Db, j: JobId) {
    j in db.jobs && LeaseAgrees(v, db, j) && HandoffAgrees(v, db, j) && OperationsAgree(v, db, j)
  }

  ghost predicate LogAgrees(db: Db, j: JobId) {
    && Agrees(Replay(db.events, j), db, j)
    && db.jobs[j].generation == Grants(db.events, j)
    && db.jobs[j].version == 1 + Bumps(db.events, j)
  }

  ghost predicate LogInv(db: Db) {
    forall j :: j in db.jobs ==> LogAgrees(db, j)
  }

  lemma {:induction false} NoEventsYet(events: seq<Event>, j: JobId)
    requires forall i :: 0 <= i < |events| ==> events[i].job != j
    ensures Replay(events, j) == BLANK && Grants(events, j) == 0 && Bumps(events, j) == 0
  {
    if events != [] {
      NoEventsYet(events[..|events| - 1], j);
    }
  }

  lemma OneEventEach(db: Db, c: Change)
    requires Inv(db) && Allowed(db, c)
    ensures var t := Write(db, c);
      |t.events| == |db.events| + 1 && t.events[..|db.events|] == db.events && t.events[|db.events|] == EventOf(db, c)
  {
    assert Write(db, c).events[..|db.events|] == db.events;
  }

  /** A change leaves every other job's rows alone. */
  lemma OtherJobsUntouched(db: Db, c: Change, v: View, j: JobId)
    requires Inv(db) && Allowed(db, c) && j != JobOf(db, c) && Agrees(v, db, j)
    ensures Agrees(v, Write(db, c), j)
  {
    hide Inv, HandoffAgrees, OperationsAgree, HasUnresolved, HasOpen;
    OtherHandoffsUntouched(db, c, v, j);
    OtherOperationsUntouched(db, c, v, j);
  }

  lemma OtherHandoffsUntouched(db: Db, c: Change, v: View, j: JobId)
    requires Inv(db) && Allowed(db, c) && j != JobOf(db, c) && HandoffAgrees(v, db, j)
    ensures HandoffAgrees(v, Write(db, c), j)
  {
    hide LeasesInv, OperationsInv, IndexInv, HasUnresolved, Observe;
    var t := Write(db, c);
    forall h | h in t.handoffs && t.handoffs[h].job == j
      ensures h in db.handoffs && db.handoffs[h] == t.handoffs[h]
    {
    }
    assert forall h :: OpenFor(t, j, h) ==> OpenFor(db, j, h);
  }

  lemma OtherOperationsUntouched(db: Db, c: Change, v: View, j: JobId)
    requires Inv(db) && Allowed(db, c) && j != JobOf(db, c) && OperationsAgree(v, db, j)
    ensures OperationsAgree(v, Write(db, c), j)
  {
    hide Inv, Allowed, Rows, EventOf, JobOf, Observe;
    var t := Write(db, c);
    if c.StartOperation? || c.Resolve? {
      OperationMoves(db, c);
    } else {
      NoOperationMoves(db, c);
    }
  }

  lemma NoOperationMoves(db: Db, c: Change)
    requires Inv(db) && Allowed(db, c) && !c.StartOperation? && !c.Resolve?
    ensures Rows(db, c).operations == db.operations
  {
    hide LeasesInv, HandoffsInv, HasUnresolved, HasOpen;
  }

  lemma OperationMoves(db: Db, c: Change)
    requires Inv(db) && Allowed(db, c) && (c.StartOperation? || c.Resolve?)
    ensures var t := Rows(db, c);
      && t.operations.Keys == db.operations.Keys + {c.operation} && t.operations[c.operation].job == JobOf(db, c)
      && t.operations[c.operation].status == (if c.StartOperation? then OpStarted else c.status)
      && (c.operation in db.operations ==> db.operations[c.operation].job == JobOf(db, c))
      && (forall o :: o in db.operations && o != c.operation ==> t.operations[o] == db.operations[o])
  {
    hide LeasesInv, HandoffsInv, HasUnresolved, HasOpen;
  }

  /** The event of a change tells exactly what it did to the job's view. */
  lemma EventTellsTheChange(db: Db, c: Change, v: View)
    requires Inv(db) && Allowed(db, c)
    requires if c.NewJob? then v == BLANK else Agrees(v, db, JobOf(db, c))
    ensures Agrees(Observe(v, EventOf(db, c).what), Write(db, c), JobOf(db, c))
  {
    EventTellsTheLease(db, c, v);
    EventTellsTheHandoff(db, c, v);
    EventTellsTheOperations(db, c, v);
    assert forall h :: OpenFor(Write(db, c), JobOf(db, c), h) ==> OpenFor(Rows(db, c), JobOf(db, c), h);
  }

  lemma EventTellsTheLease(db: Db, c: Change, v: View)
    requires Inv(db) && Allowed(db, c)
    requires if c.NewJob? then v == BLANK else JobOf(db, c) in db.jobs && LeaseAgrees(v, db, JobOf(db, c))
    ensures JobOf(db, c) in Rows(db, c).jobs
    ensures LeaseAgrees(Observe(v, EventOf(db, c).what), Rows(db, c), JobOf(db, c))
  {
    hide HandoffsInv, OperationsInv, HasOpen, HasUnresolved;
  }

  lemma EventTellsTheOperations(db: Db, c: Change, v: View)
    requires Inv(db) && Allowed(db, c)
    requires if c.NewJob? then v == BLANK else OperationsAgree(v, db, JobOf(db, c))
    ensures OperationsAgree(Observe(v, EventOf(db, c).what), Rows(db, c), JobOf(db, c))
  {
    hide LeasesInv, HandoffsInv, HasOpen, HasUnresolved;
    if c.StartOperation? || c.Resolve? {
      OperationEventTellsTheRow(db, c, v);
    } else {
      NoOperationMoves(db, c);
      assert Observe(v, EventOf(db, c).what).operations == v.operations;
    }
  }

  lemma OperationEventTellsTheRow(db: Db, c: Change, v: View)
    requires Inv(db) && Allowed(db, c) && (c.StartOperation? || c.Resolve?)
    requires OperationsAgree(v, db, JobOf(db, c))
    ensures OperationsAgree(Observe(v, EventOf(db, c).what), Rows(db, c), JobOf(db, c))
  {
    hide LeasesInv, HandoffsInv, HasUnresolved, HasOpen;
    var u := Observe(v, EventOf(db, c).what);
    var t := Rows(db, c);
    var j := JobOf(db, c);
    assert u.operations == v.operations[c.operation := if c.StartOperation? then OpStarted else c.status];
    OperationMoves(db, c);
    hide Inv, Allowed, Rows, EventOf, JobOf, Observe;
    OneStatusMoves(db, t, j, c.operation, v, u);
  }

  lemma OneStatusMoves(db: Db, t: Db, j: JobId, o: OperationId, v: View, u: View)
    requires OperationsAgree(v, db, j) && t.operations.Keys == db.operations.Keys + {o}
    requires t.operations[o].job == j && u.operations == v.operations[o := t.operations[o].status]
    requires forall p :: p in db.operations && p != o ==> t.operations[p] == db.operations[p]
    ensures OperationsAgree(u, t, j)
  {
    assert forall p :: p in t.operations <==> p in db.operations || p == o;
  }

  predicate MovesHandoff(c: Change) {
    c.OpenHandoff? || c.ClaimHandoff? || c.ExpireHandoff? || c.Reserve? || c.Recycle?
  }

  lemma EventTellsTheHandoff(db: Db, c: Change, v: View)
    requires Inv(db) && Allowed(db, c)
    requires if c.NewJob? then v == BLANK else HandoffAgrees(v, db, JobOf(db, c))
    ensures HandoffAgrees(Observe(v, EventOf(db, c).what), Rows(db, c), JobOf(db, c))
  {
    hide LeasesInv, OperationsInv, IndexInv, HasUnresolved;
    if MovesHandoff(c) {
      HandoffEventTellsTheRow(db, c, v);
    } else {
      assert Rows(db, c).handoffs == db.handoffs;
      assert Observe(v, EventOf(db, c).what).handoff == v.handoff;
      assert forall h :: OpenFor(Rows(db, c), JobOf(db, c), h) ==> OpenFor(db, JobOf(db, c), h);
    }
  }

  lemma HandoffEventTellsTheRow(db: Db, c: Change, v: View)
    requires Inv(db) && Allowed(db, c) && MovesHandoff(c)
    ensures HandoffAgrees(Observe(v, EventOf(db, c).what), Rows(db, c), JobOf(db, c))
  {
    if c.ClaimHandoff? || c.ExpireHandoff? {
      assert Observe(v, EventOf(db, c).what).handoff == None;
      ClosingLeavesNoneOpen(db, c);
    } else {
      assert Observe(v, EventOf(db, c).what).handoff == Some((c.handoff, c.Reserve?));
    }
  }

  lemma ClosingLeavesNoneOpen(db: Db, c: Change)
    requires Inv(db) && Allowed(db, c) && (c.ClaimHandoff? || c.ExpireHandoff?)
    ensures !HasOpen(Rows(db, c), JobOf(db, c))
  {
    var t := Rows(db, c);
    forall h | h in t.handoffs
      ensures !OpenFor(t, JobOf(db, c), h)
    {
      if h != c.handoff {
        assert t.handoffs[h] == db.handoffs[h];
        assert Compatible(db.handoffs[h], db.handoffs[c.handoff]);
      }
    }
  }

  lemma WriteKeepsLogInv(db: Db, c: Change)
    requires Inv(db) && LogInv(db) && Allowed(db, c)
    ensures LogInv(Write(db, c))
  {
    forall j | j in Write(db, c).jobs
      ensures LogAgrees(Write(db, c), j)
    {
      if j == JobOf(db, c) {
        ChangedJobAgrees(db, c);
      } else {
        OtherJobAgrees(db, c, j);
      }
    }
  }

  lemma ChangedJobAgrees(db: Db, c: Change)
    requires Inv(db) && LogInv(db) && Allowed(db, c)
    ensures LogAgrees(Write(db, c), JobOf(db, c))
  {
    var j := JobOf(db, c);
    if c.NewJob? {
      NoEventsYet(db.events, j);
    } else {
      assert LogAgrees(db, j);
    }
    ReplayOneMore(db, c, j);
    EventTellsTheChange(db, c, Replay(db.events, j));
    CountersTellTheChange(db, c);
  }

  lemma OtherJobAgrees(db: Db, c: Change, j: JobId)
    requires Inv(db) && LogInv(db) && Allowed(db, c) && j in db.jobs && j != JobOf(db, c)
    ensures LogAgrees(Write(db, c), j)
  {
    assert LogAgrees(db, j);
    ReplayOneMore(db, c, j);
    OtherJobsUntouched(db, c, Replay(db.events, j), j);
    OtherCountersUntouched(db, c, j);
  }

  lemma ReplayOneMore(db: Db, c: Change, j: JobId)
    requires Inv(db) && Allowed(db, c)
    ensures Replay(Write(db, c).events, j) ==
      if j == JobOf(db, c) then Observe(Replay(db.events, j), EventOf(db, c).what) else Replay(db.events, j)
  {
    assert Write(db, c).events[..|db.events|] == db.events;
  }

  lemma CountersTellTheChange(db: Db, c: Change)
    requires Inv(db) && Allowed(db, c)
    requires !c.NewJob? ==> JobOf(db, c) in db.jobs
    requires var j := JobOf(db, c);
      && Grants(db.events, j) == (if c.NewJob? then 0 else db.jobs[j].generation)
      && Bumps(db.events, j) + 1 == (if c.NewJob? then 1 else db.jobs[j].version)
    ensures var t := Write(db, c);
      && JobOf(db, c) in t.jobs
      && t.jobs[JobOf(db, c)].generation == Grants(t.events, JobOf(db, c))
      && t.jobs[JobOf(db, c)].version == 1 + Bumps(t.events, JobOf(db, c))
  {
    hide HandoffsInv, OperationsInv, HasOpen, HasUnresolved;
    var t := Write(db, c);
    OneEventEach(db, c);
    assert t.events[..|t.events| - 1] == db.events;
  }

  lemma OtherCountersUntouched(db: Db, c: Change, j: JobId)
    requires Inv(db) && Allowed(db, c) && j in db.jobs && j != JobOf(db, c)
    ensures var t := Write(db, c);
      && j in t.jobs && t.jobs[j] == db.jobs[j]
      && Grants(t.events, j) == Grants(db.events, j) && Bumps(t.events, j) == Bumps(db.events, j)
  {
    var t := Write(db, c);
    OneEventEach(db, c);
    assert t.events[..|t.events| - 1] == db.events;
  }
}
