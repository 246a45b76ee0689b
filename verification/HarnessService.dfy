/**
The harness service as it runs: one database whose rows every call reads and rewrites in place, one
transaction a call.  Each method is proved to answer and leave the tables as the transaction of
`HarnessCalls` says, and to leave them untouched when it fails.
*/
module HarnessService {
  import opened Prelude
  import opened HarnessTables
  import HC = HarnessCalls

  type Reply = HC.Reply
  type Error = HC.Error

  /** The call answered as its transaction says: committed whole, or not at all. */
  ghost predicate Answered(o: HC.Outcome, before: Db, after: Db, r: Result<Reply, Error>)
    requires Inv(before) && (o.Ok? ==> HC.Legal(before, o.value.0))
  {
    match o
    case Ok((cs, reply)) => r == Ok(reply) && after == HC.Commit(before, cs)
    case Err(e) => r == Err(e) && after == before
  }

  lemma KeyedUnique(db: Db, j: JobId, key: Key, o: OperationId)
    requires Inv(db) && HC.HasKey(db, j, key, o)
    ensures HC.KeyedOperation(db, j, key) == Some(o)
  {
  }

  lemma NonceUnique(db: Db, j: JobId, nonce: Nonce, h: HandoffId)
    requires Inv(db) && HC.HasNonce(db, j, nonce, h)
    ensures HC.HandoffByNonce(db, j, nonce) == Some(h)
  {
    var k := HC.HandoffByNonce(db, j, nonce).value;
    assert h == k || Compatible(db.handoffs[h], db.handoffs[k]);
  }

  lemma ExpireIsWrite(db: Db, j: JobId, now: Time)
    requires Inv(db)
    ensures var cs := HC.ExpireChanges(db, j, now);
      && (cs == [] ==> HC.Expire(db, j, now) == db)
      && (cs != [] ==> cs == [cs[0]] && Allowed(db, cs[0]) && HC.Expire(db, j, now) == Write(db, cs[0]))
  {
    var cs := HC.ExpireChanges(db, j, now);
    if cs != [] {
      HC.LegalOne(db, cs[0]);
      assert cs == [cs[0]];
    }
  }

  predicate Due(row: Handoff, j: JobId, now: Time) {
    row.job == j && Open(row) && row.expires <= now
  }

  predicate Stale(row: Handoff, j: JobId, now: Time) {
    && row.job == j && row.state == Starting && row.startingExpires.Some? && row.startingExpires.value <= now
    && now < row.expires
  }

  /** The two expiry queries return nothing, or the job's one open row. */
  lemma ExpiryQueries(db: Db, j: JobId, now: Time)
    requires Inv(db)
    ensures (set h: HandoffId | h in db.handoffs && Due(db.handoffs[h], j, now)) ==
      match HC.OpenOf(db, j) case None => {} case Some(h) => if Due(db.handoffs[h], j, now) then {h} else {}
    ensures (set h: HandoffId | h in db.handoffs && Stale(db.handoffs[h], j, now)) ==
      match HC.OpenOf(db, j) case None => {} case Some(h) => if Stale(db.handoffs[h], j, now) then {h} else {}
  {
    forall h: HandoffId | OpenFor(db, j, h)
      ensures HC.OpenOf(db, j) == Some(h)
    {
      HC.OnlyOneOpen(db, j, h);
    }
    assert forall h: HandoffId :: h in db.handoffs && Due(db.handoffs[h], j, now) ==> OpenFor(db, j, h);
    assert forall h: HandoffId :: h in db.handoffs && Stale(db.handoffs[h], j, now) ==> OpenFor(db, j, h);
  }

  lemma {:induction false} ExpireAllLast(db: Db, order: seq<JobId>, j: JobId, now: Time)
    requires Inv(db)
    ensures HC.ExpireAll(db, order + [j], now) == HC.Expire(HC.ExpireAll(db, order, now), j, now)
    decreases |order|
  {
    hide *;
    HC.ExpireAllUnfold(db, order + [j], now);
    if order == [] {
      NothingExpiredYet(db, now);
      NothingExpiredYet(HC.Expire(db, j, now), now);
      assert order + [j] == [j] && [j][1..] == [];
    } else {
      assert (order + [j])[0] == order[0];
      HC.ExpireAllUnfold(db, order, now);
      assert (order + [j])[1..] == order[1..] + [j];
      ExpireAllLast(HC.Expire(db, order[0], now), order[1..], j, now);
    }
  }

  lemma NoOpenWithLease(was: Db, mid: Db, job: JobId)
    requires Inv(was) && Inv(mid) && job in was.leases && mid.handoffs == was.handoffs
    ensures HC.OpenOf(was, job).None? && HC.OpenOf(mid, job).None?
  {
    assert forall h :: OpenFor(was, job, h) <==> OpenFor(mid, job, h);
  }

  lemma ClosedNow(mid: Db, job: JobId)
    requires Inv(mid) && HC.OpenOf(mid, job).Some?
    requires var c := ExpireHandoff(HC.OpenOf(mid, job).value); Inv(Write(mid, c))
    ensures HC.OpenOf(Write(mid, ExpireHandoff(HC.OpenOf(mid, job).value)), job).None?
  {
    var h := HC.OpenOf(mid, job).value;
    var late := Write(mid, ExpireHandoff(h));
    forall k | OpenFor(late, job, k)
      ensures false
    {
      assert OpenFor(mid, job, k);
      HC.OnlyOneOpen(mid, job, k);
    }
  }

  lemma OpenJobs(db: Db, ids: set<JobId>)
    requires ids == set h | h in db.handoffs && Open(db.handoffs[h]) :: db.handoffs[h].job
    ensures forall j: JobId :: j in ids <==> HasOpen(db, j)
  {
    forall j: JobId
      ensures j in ids <==> HasOpen(db, j)
    {
      if j in ids {
        var h: HandoffId :| h in db.handoffs && Open(db.handoffs[h]) && db.handoffs[h].job == j;
        assert OpenFor(db, j, h);
      }
    }
  }

  lemma HandoffHasJob(db: Db, h: HandoffId)
    requires Inv(db) && h in db.handoffs
    ensures db.handoffs[h].job in db.jobs
  {
  }

  /** Every job is either visited, once, or still to be visited. */
  ghost predicate ToVisit(all: set<JobId>, ids: set<JobId>, order: seq<JobId>) {
    NoDuplicates(order) && forall j: JobId :: (j in all <==> j in order || j in ids) && !(j in order && j in ids)
  }

  lemma OneMoreVisit(all: set<JobId>, ids: set<JobId>, order: seq<JobId>, job: JobId)
    requires ToVisit(all, ids, order) && job in ids
    ensures ToVisit(all, ids - {job}, order + [job])
  {
  }

  lemma NothingExpiredYet(db: Db, now: Time)
    requires Inv(db)
    ensures HC.ExpireAll(db, [], now) == db
  {
  }

  class Service {
    var jobs: map<JobId, Job>
    var leases: map<JobId, Lease>
    var handoffs: map<HandoffId, Handoff>
    var operations: map<OperationId, Operation>
    var events: seq<Event>

    function Tables(): Db
      reads this
    {
      Db(jobs, leases, handoffs, operations, events)
    }

    ghost predicate Valid()
      reads this
    {
      Inv(Tables())
    }

    constructor ()
      ensures Valid() && Tables() == EMPTY
    {
      jobs, leases, handoffs, operations, events := map[], map[], map[], map[], [];
    }

    method Log(job: JobId, what: What)
      modifies this`events
      ensures events == old(events) + [Event(job, what)]
    {
      events := events + [Event(job, what)];
    }

    method Rollback(was: Db)
      modifies this
      ensures Tables() == was
    {
      jobs, leases, handoffs, operations, events := was.jobs, was.leases, was.handoffs, was.operations, was.events;
    }

    method Begin() returns (was: Db)
      ensures was == Tables()
    {
      was := Db(jobs, leases, handoffs, operations, events);
    }

    method ExpireLease(job: JobId, now: Time)
      requires Valid()
      modifies this
      ensures var was := old(Tables());
        Tables() == if job in was.leases && was.leases[job].expires <= now then Write(was, EndLease(job, true)) else was
      ensures Valid()
    {
      ghost var was := Tables();
      if job in leases && leases[job].expires <= now {
        WriteKeepsInv(was, EndLease(job, true));
        var lease := leases[job];
        leases := leases - {job};
        Log(job, LeaseExpired(lease.id, lease.generation));
        assert Tables() == Write(was, EndLease(job, true));
      }
    }

    method ExpireHandoffs(job: JobId, now: Time)
      requires Valid()
      modifies this
      ensures var was := old(Tables());
        var open := HC.OpenOf(was, job);
        Tables() == if open.Some? && was.handoffs[open.value].expires <= now then Write(was, ExpireHandoff(open.value)) else was
      ensures Valid()
    {
      hide LeasesInv, ExclusionInv, IndexInv, OperationsInv, HasOpen, HasUnresolved;
      ghost var was := Tables();
      var due := set h: HandoffId | h in handoffs && Due(handoffs[h], job, now);
      ExpiryQueries(was, job, now);
      ghost var all := due;
      ghost var open := HC.OpenOf(was, job);
      while due != {}
        invariant due <= all
        invariant due == {} || due == all
        invariant due == all ==> Tables() == was
        invariant due != all ==> Allowed(was, ExpireHandoff(open.value)) && Tables() == Write(was, ExpireHandoff(open.value))
      {
        var h :| h in due;
        handoffs := handoffs[h := NoStart(handoffs[h]).(state := HandoffState.Expired, secret := None)];
        Log(job, HandoffExpired(h));
        assert Tables() == Write(was, ExpireHandoff(h));
        due := due - {h};
      }
      if all != {} {
        WriteKeepsInv(was, ExpireHandoff(open.value));
      }
    }

    method RecycleStarts(job: JobId, now: Time)
      requires Valid()
      modifies this
      ensures var was := old(Tables());
        var open := HC.OpenOf(was, job);
        Tables() == if open.Some? && Stale(was.handoffs[open.value], job, now) then Write(was, Recycle(open.value, false)) else was
      ensures Valid()
    {
      hide LeasesInv, ExclusionInv, IndexInv, OperationsInv, HasOpen, HasUnresolved;
      ghost var was := Tables();
      var stale := set h: HandoffId | h in handoffs && Stale(handoffs[h], job, now);
      ExpiryQueries(was, job, now);
      ghost var all := stale;
      ghost var open := HC.OpenOf(was, job);
      while stale != {}
        invariant stale <= all
        invariant stale == {} || stale == all
        invariant stale == all ==> Tables() == was
        invariant stale != all ==> Allowed(was, Recycle(open.value, false)) && Tables() == Write(was, Recycle(open.value, false))
      {
        var h :| h in stale;
        handoffs := handoffs[h := NoStart(handoffs[h]).(state := Pending)];
        Log(job, HandoffStartExpired(h));
        assert Tables() == Write(was, Recycle(h, false));
        stale := stale - {h};
      }
      if all != {} {
        WriteKeepsInv(was, Recycle(open.value, false));
      }
    }

    /** `_expire`: the lease, then the handoffs past their own expiry, then the stale reservations. */
    method Expire(job: JobId, now: Time)
      requires Valid()
      modifies this
      ensures Tables() == HC.Expire(old(Tables()), job, now) && Valid()
    {
      ghost var was := Tables();
      ExpireIsWrite(was, job, now);
      ExpireLease(job, now);
      ghost var mid := Tables();
      if job in was.leases {
        NoOpenWithLease(was, mid, job);
      }
      ExpireHandoffs(job, now);
      ghost var late := Tables();
      if late != mid {
        ClosedNow(mid, job);
      }
      RecycleStarts(job, now);
    }

    // INSERT, UPDATE and DELETE statements with the event each writes.

    method PutRenewal(job: JobId, expires: Time)
      requires Valid() && Allowed(Tables(), Renew(job, expires))
      modifies this
      ensures Valid() && Tables() == Write(old(Tables()), Renew(job, expires))
    {
      hide Inv, HasOpen, HasUnresolved;
      WriteKeepsInv(Tables(), Renew(job, expires));
      leases := leases[job := leases[job].(expires := expires)];
      Log(job, LeaseRenewed(leases[job].generation));
    }

    method DropLease(job: JobId)
      requires Valid() && Allowed(Tables(), EndLease(job, false))
      modifies this
      ensures Valid() && Tables() == Write(old(Tables()), EndLease(job, false))
    {
      hide Inv, HasOpen, HasUnresolved;
      WriteKeepsInv(Tables(), EndLease(job, false));
      var generation := leases[job].generation;
      leases := leases - {job};
      Log(job, LeaseReleased(generation));
    }

    method PutGrant(job: JobId, lease: LeaseId, holder: Holder, expires: Time)
      requires Valid() && Allowed(Tables(), Grant(job, lease, holder, expires))
      modifies this
      ensures Valid() && Tables() == Write(old(Tables()), Grant(job, lease, holder, expires))
    {
      hide Inv, HasOpen, HasUnresolved;
      WriteKeepsInv(Tables(), Grant(job, lease, holder, expires));
      var generation := jobs[job].generation + 1;
      leases := leases[job := Lease(lease, holder, generation, expires)];
      jobs := jobs[job := jobs[job].(generation := generation, version := jobs[job].version + 1)];
      Log(job, LeaseAcquired(lease, holder, generation));
    }

    method PutUpdate(job: JobId, lifecycle: Lifecycle, columns: map<Column, Value>)
      requires Valid() && Allowed(Tables(), Update(job, lifecycle, columns))
      modifies this
      ensures Valid() && Tables() == Write(old(Tables()), Update(job, lifecycle, columns))
      ensures job in jobs && jobs[job] == Job(old(jobs)[job].version + 1, old(jobs)[job].generation, lifecycle, old(jobs)[job].columns + columns)
    {
      hide Inv, HasOpen, HasUnresolved;
      WriteKeepsInv(Tables(), Update(job, lifecycle, columns));
      var row := jobs[job];
      jobs := jobs[job := Job(row.version + 1, row.generation, lifecycle, row.columns + columns)];
      Log(job, JobUpdated(row.version));
    }

    method PutHandoff(job: JobId, h: HandoffId, nonce: Nonce, created: Time, expires: Time)
      requires Valid() && Allowed(Tables(), OpenHandoff(job, h, nonce, created, expires))
      modifies this
      ensures Valid() && Tables() == Write(old(Tables()), OpenHandoff(job, h, nonce, created, expires))
    {
      hide Inv, HasOpen, HasUnresolved;
      WriteKeepsInv(Tables(), OpenHandoff(job, h, nonce, created, expires));
      var generation := leases[job].generation;
      handoffs := handoffs[h := Handoff(job, NonceHash(nonce), Some(nonce), Pending, created, expires, None, None, None, None)];
      leases := leases - {job};
      jobs := jobs[job := jobs[job].(version := jobs[job].version + 1)];
      Log(job, HandoffCreated(h, generation));
    }

    method PutClaim(h: HandoffId, lease: LeaseId, holder: Holder, expires: Time)
      requires Valid() && Allowed(Tables(), HarnessTables.ClaimHandoff(h, lease, holder, expires))
      modifies this
      ensures Valid() && Tables() == Write(old(Tables()), HarnessTables.ClaimHandoff(h, lease, holder, expires))
    {
      hide Inv;
      HandoffHasJob(Tables(), h);
      WriteKeepsInv(Tables(), HarnessTables.ClaimHandoff(h, lease, holder, expires));
      var job := handoffs[h].job;
      var generation := jobs[job].generation + 1;
      handoffs := handoffs[h := NoStart(handoffs[h]).(state := Claimed, secret := None, claimedBy := Some(holder))];
      leases := leases[job := Lease(lease, holder, generation, expires)];
      jobs := jobs[job := jobs[job].(generation := generation, version := jobs[job].version + 1)];
      Log(job, HandoffClaimed(h, holder, generation));
    }

    method PutReservation(h: HandoffId, client: Client, at: Time, until: Time)
      requires Valid() && Allowed(Tables(), Reserve(h, client, at, until))
      modifies this
      ensures Valid() && Tables() == Write(old(Tables()), Reserve(h, client, at, until))
      ensures h in handoffs && handoffs[h].secret == old(handoffs)[h].secret
    {
      hide Inv, HasOpen, HasUnresolved;
      WriteKeepsInv(Tables(), Reserve(h, client, at, until));
      handoffs := handoffs[h := handoffs[h].(
        state := Starting, startingBy := Some(client), startingAt := Some(at), startingExpires := Some(until))];
      Log(handoffs[h].job, HandoffStarting(h, client));
    }

    method PutReleased(h: HandoffId)
      requires Valid() && Allowed(Tables(), Recycle(h, true))
      modifies this
      ensures Valid() && Tables() == Write(old(Tables()), Recycle(h, true))
    {
      hide LeasesInv, ExclusionInv, IndexInv, OperationsInv, HasOpen, HasUnresolved;
      WriteKeepsInv(Tables(), Recycle(h, true));
      var row := handoffs[h];
      handoffs := handoffs[h := NoStart(row).(state := Pending)];
      Log(row.job, HandoffStartReleased(h, row.startingBy.value));
    }

    method PutOperation(job: JobId, o: OperationId, key: Key, payload: Payload)
      requires Valid() && Allowed(Tables(), HarnessTables.StartOperation(job, o, key, payload))
      modifies this
      ensures Valid() && Tables() == Write(old(Tables()), HarnessTables.StartOperation(job, o, key, payload))
      ensures o in operations && operations[o] == Operation(job, key, payload, OpStarted, None)
    {
      hide Inv, HasOpen, HasUnresolved;
      WriteKeepsInv(Tables(), HarnessTables.StartOperation(job, o, key, payload));
      operations := operations[o := Operation(job, key, payload, OpStarted, None)];
      Log(job, OperationStarted(o, key));
    }

    method PutResolution(o: OperationId, status: Status, result: Option<Value>)
      requires Valid() && Allowed(Tables(), Resolve(o, status, result))
      modifies this
      ensures Valid() && Tables() == Write(old(Tables()), Resolve(o, status, result))
      ensures o in operations && operations[o] == old(operations)[o].(status := status, result := result)
    {
      hide Inv, HasOpen, HasUnresolved;
      WriteKeepsInv(Tables(), Resolve(o, status, result));
      var row := operations[o];
      operations := operations[o := row.(status := status, result := result)];
      Log(row.job,
        if row.status == OpIndeterminate then OperationReconciled(o, row.status, status)
        else OperationFinished(o, row.status, status));
    }

    method CreateJob(job: JobId, named: bool, lifecycle: Lifecycle, columns: map<Column, Value>)
      returns (r: Result<Reply, Error>)
      requires Valid()
      modifies this
      ensures Valid()
      ensures Answered(HC.Create(old(Tables()), HC.CreateJob(job, named, lifecycle, columns)), old(Tables()), Tables(), r)
    {
      if !named {
        return Err(HC.Invalid);
      }
      ghost var was := Tables();
      if job in jobs {
        return Err(HC.JobExists);
      }
      HC.LegalOne(was, NewJob(job, lifecycle, columns));
      jobs := jobs[job := Job(1, 0, lifecycle, columns)];
      Log(job, JobCreated);
      assert Tables() == Write(was, NewJob(job, lifecycle, columns));
      return Ok(HC.JobReply(jobs[job]));
    }

    method GetJob(job: JobId, now: Time) returns (r: Result<Reply, Error>)
      requires Valid()
      modifies this
      ensures Valid() && Answered(HC.Get(old(Tables()), job, now), old(Tables()), Tables(), r)
    {
      if job !in jobs {
        return Err(HC.JobNotFound);
      }
      HC.ExpireFacts(Tables(), job, now);
      Expire(job, now);
      return Ok(HC.JobReply(jobs[job]));
    }

    method AcquireLease(job: JobId, holder: Holder, ttl: Time, now: Time, leaseId: LeaseId)
      returns (r: Result<Reply, Error>)
      requires Valid()
      modifies this
      ensures Valid()
      ensures Answered(HC.Acquire(old(Tables()), job, holder, ttl, now, leaseId), old(Tables()), Tables(), r)
    {
      hide HC.Commit, HC.Legal, Inv, Write;
      if !HC.LeaseTtl(ttl) {
        return Err(HC.Invalid);
      }
      var was := Begin();
      if job !in jobs {
        return Err(HC.JobNotFound);
      }
      var row := jobs[job];
      HC.ExpireFacts(was, job, now);
      Expire(job, now);
      ghost var d := Tables();
      if Terminal(row.lifecycle) {
        Rollback(was);
        return Err(HC.JobTerminal);
      }
      if exists h :: h in handoffs && OpenFor(Tables(), job, h) {
        Rollback(was);
        return Err(HC.OpenHandoffExists);
      }
      if job in leases {
        var current := leases[job];
        if current.holder != holder {
          Rollback(was);
          return Err(HC.AlreadyLeased);
        }
        HC.Then(was, HC.ExpireChanges(was, job, now), Renew(job, now + ttl));
        PutRenewal(job, now + ttl);
        return Ok(HC.TokenReply(HC.Token(job, current.id, holder, current.generation, now + ttl)));
      }
      if HC.LeaseIdUsed(Tables(), leaseId) {
        Rollback(was);
        return Err(HC.Integrity);
      }
      var generation := row.generation + 1;
      ghost var c := Grant(job, leaseId, holder, now + ttl);
      HC.Then(was, HC.ExpireChanges(was, job, now), c);
      PutGrant(job, leaseId, holder, now + ttl);
      return Ok(HC.TokenReply(HC.Token(job, leaseId, holder, generation, now + ttl)));
    }

    /** `_require_lease`: expire, then compare the row's identifier and generation. */
    method RequireLease(t: HC.Token, now: Time) returns (e: Option<Error>)
      requires Valid()
      modifies this
      ensures Valid() && Tables() == HC.Expire(old(Tables()), t.job, now)
      ensures e == HC.LeaseError(Tables(), t) && (e.None? ==> t.job in jobs)
    {
      Expire(t.job, now);
      if t.job !in leases {
        return Some(HC.NotLeased);
      }
      var row := leases[t.job];
      if row.id != t.lease || row.generation != t.generation {
        return Some(HC.StaleToken);
      }
      return None;
    }

    method RenewLease(t: HC.Token, ttl: Time, now: Time) returns (r: Result<Reply, Error>)
      requires Valid()
      modifies this
      ensures Valid() && Answered(HC.RenewCall(old(Tables()), t, ttl, now), old(Tables()), Tables(), r)
    {
      hide HC.Commit, HC.Legal, Inv, Write;
      if !HC.LeaseTtl(ttl) {
        return Err(HC.Invalid);
      }
      var was := Begin();
      var error := RequireLease(t, now);
      if error.Some? {
        Rollback(was);
        return Err(error.value);
      }
      ghost var d := Tables();
      HC.Then(was, HC.ExpireChanges(was, t.job, now), Renew(t.job, now + ttl));
      var row := leases[t.job];
      PutRenewal(t.job, now + ttl);
      return Ok(HC.TokenReply(HC.Token(t.job, t.lease, row.holder, t.generation, now + ttl)));
    }

    method ReleaseLease(t: HC.Token, now: Time) returns (r: Result<Reply, Error>)
      requires Valid()
      modifies this
      ensures Valid() && Answered(HC.Release(old(Tables()), t, now), old(Tables()), Tables(), r)
    {
      hide HC.Commit, HC.Legal, Inv, Write;
      var was := Begin();
      if t.job !in jobs {
        return Err(HC.JobNotFound);
      }
      var error := RequireLease(t, now);
      if error.Some? {
        Rollback(was);
        return Err(error.value);
      }
      ghost var d := Tables();
      HC.Then(was, HC.ExpireChanges(was, t.job, now), EndLease(t.job, false));
      DropLease(t.job);
      return Ok(HC.Done);
    }

    method UpdateJob(
      t: HC.Token, expected: nat, target: Option<Lifecycle>, columns: map<Column, Value>, now: Time)
      returns (r: Result<Reply, Error>)
      requires Valid()
      modifies this
      ensures Valid()
      ensures Answered(HC.UpdateCall(old(Tables()), t, expected, target, columns, now), old(Tables()), Tables(), r)
    {
      hide HC.Commit, HC.Legal, Inv, Write;
      if target.None? && columns == map[] {
        return Err(HC.Invalid);
      }
      var was := Begin();
      var error := RequireLease(t, now);
      if error.Some? {
        Rollback(was);
        return Err(error.value);
      }
      ghost var d := Tables();
      var job := jobs[t.job];
      if Terminal(job.lifecycle) {
        Rollback(was);
        return Err(HC.JobTerminal);
      }
      if exists o :: o in operations && operations[o].job == t.job && Unresolved(operations[o]) {
        Rollback(was);
        return Err(HC.UnresolvedOperation);
      }
      if job.version != expected {
        Rollback(was);
        return Err(HC.VersionChanged);
      }
      if target.Some? && !Transition(job.lifecycle, target.value) {
        Rollback(was);
        return Err(HC.IllegalTransition);
      }
      var next := if target.Some? then target.value else job.lifecycle;
      ghost var c := Update(t.job, next, columns);
      HC.Then(was, HC.ExpireChanges(was, t.job, now), c);
      PutUpdate(t.job, next, columns);
      return Ok(HC.JobReply(jobs[t.job]));
    }

    method CreateHandoff(t: HC.Token, ttl: Time, now: Time, newId: HandoffId, nonce: Nonce)
      returns (r: Result<Reply, Error>)
      requires Valid()
      modifies this
      ensures Valid()
      ensures Answered(HC.HandOff(old(Tables()), t, ttl, now, newId, nonce), old(Tables()), Tables(), r)
    {
      hide HC.Commit, HC.Legal, Inv, Write;
      if !HC.LeaseTtl(ttl) {
        return Err(HC.Invalid);
      }
      var was := Begin();
      var error := RequireLease(t, now);
      if error.Some? {
        Rollback(was);
        return Err(error.value);
      }
      ghost var d := Tables();
      var job := jobs[t.job];
      if Terminal(job.lifecycle) {
        Rollback(was);
        return Err(HC.JobTerminal);
      }
      if exists h :: h in handoffs && OpenFor(Tables(), t.job, h) {
        Rollback(was);
        return Err(HC.OpenHandoffExists);
      }
      if HC.HandoffIdUsed(Tables(), newId, nonce) {
        Rollback(was);
        return Err(HC.Integrity);
      }
      ghost var c := OpenHandoff(t.job, newId, nonce, now, now + ttl);
      HC.Then(was, HC.ExpireChanges(was, t.job, now), c);
      PutHandoff(t.job, newId, nonce, now, now + ttl);
      return Ok(HC.HandoffReply(newId, nonce, now + ttl));
    }

    method ClaimHandoff(job: JobId, nonce: Nonce, holder: Holder, ttl: Time, now: Time, leaseId: LeaseId)
      returns (r: Result<Reply, Error>)
      requires Valid()
      modifies this
      ensures Valid()
      ensures Answered(HC.Claim(old(Tables()), job, nonce, holder, ttl, now, leaseId), old(Tables()), Tables(), r)
    {
      hide HC.Commit, HC.Legal, HC.ExpireChanges, HasUnresolved, Inv, Write;
      if !HC.LeaseTtl(ttl) {
        return Err(HC.Invalid);
      }
      var was := Begin();
      if job !in jobs {
        return Err(HC.JobNotFound);
      }
      var row := jobs[job];
      HC.ExpireFacts(was, job, now);
      Expire(job, now);
      ghost var d := Tables();
      if Terminal(row.lifecycle) {
        Rollback(was);
        return Err(HC.JobTerminal);
      }
      if h: HandoffId :| h in handoffs && HC.HasNonce(Tables(), job, nonce, h) {
        NonceUnique(d, job, nonce, h);
        if !Open(handoffs[h]) || handoffs[h].expires <= now {
          Rollback(was);
          return Err(HC.NotClaimable);
        }
        if job in leases {
          Rollback(was);
          return Err(HC.AlreadyLeased);
        }
        if HC.LeaseIdUsed(Tables(), leaseId) {
          Rollback(was);
          return Err(HC.Integrity);
        }
        ghost var c := HarnessTables.ClaimHandoff(h, leaseId, holder, now + ttl);
        HC.Then(was, HC.ExpireChanges(was, job, now), c);
        var generation := row.generation + 1;
        PutClaim(h, leaseId, holder, now + ttl);
        return Ok(HC.TokenReply(HC.Token(job, leaseId, holder, generation, now + ttl)));
      }
      Rollback(was);
      return Err(HC.HandoffNotFound);
    }

    method StartOperation(t: HC.Token, key: Key, payload: Payload, now: Time, newId: OperationId)
      returns (r: Result<Reply, Error>)
      requires Valid()
      modifies this
      ensures Valid()
      ensures Answered(HC.StartOp(old(Tables()), t, key, payload, now, newId), old(Tables()), Tables(), r)
    {
      hide HC.Commit, HC.Legal, Inv, Write;
      var was := Begin();
      var error := RequireLease(t, now);
      if error.Some? {
        Rollback(was);
        return Err(error.value);
      }
      ghost var d := Tables();
      if Terminal(jobs[t.job].lifecycle) {
        Rollback(was);
        return Err(HC.JobTerminal);
      }
      if o: OperationId :| o in operations && HC.HasKey(Tables(), t.job, key, o) {
        KeyedUnique(d, t.job, key, o);
        if operations[o].payload != payload {
          Rollback(was);
          return Err(HC.PayloadConflict);
        }
        return Ok(HC.StartReply(o, false, operations[o]));
      }
      if exists o :: o in operations && operations[o].job == t.job && Unresolved(operations[o]) {
        Rollback(was);
        return Err(HC.UnresolvedOperation);
      }
      if newId in operations {
        Rollback(was);
        return Err(HC.Integrity);
      }
      assert forall o: OperationId :: o in d.operations ==> !HC.HasKey(d, t.job, key, o);
      ghost var c := HarnessTables.StartOperation(t.job, newId, key, payload);
      HC.Then(was, HC.ExpireChanges(was, t.job, now), c);
      PutOperation(t.job, newId, key, payload);
      return Ok(HC.StartReply(newId, true, operations[newId]));
    }

    method FinishOperation(t: HC.Token, o: OperationId, status: Status, result: Option<Value>, now: Time)
      returns (r: Result<Reply, Error>)
      requires Valid()
      modifies this
      ensures Valid()
      ensures Answered(HC.FinishOp(old(Tables()), t, o, status, result, now), old(Tables()), Tables(), r)
    {
      hide HC.Commit, HC.Legal, Inv, Write;
      if status == OpStarted {
        return Err(HC.Invalid);
      }
      var was := Begin();
      var error := RequireLease(t, now);
      if error.Some? {
        Rollback(was);
        return Err(error.value);
      }
      ghost var d := Tables();
      if o !in operations || operations[o].job != t.job {
        Rollback(was);
        return Err(HC.OperationNotFound);
      }
      var row := operations[o];
      if row.status == OpCompleted || row.status == OpFailed {
        if row.status == status {
          return Ok(HC.OperationReply(row));
        }
        Rollback(was);
        return Err(HC.OperationTerminal);
      }
      if row.status == OpIndeterminate && status == OpIndeterminate {
        return Ok(HC.OperationReply(row));
      }
      ghost var c := Resolve(o, status, result);
      HC.Then(was, HC.ExpireChanges(was, t.job, now), c);
      PutResolution(o, status, result);
      return Ok(HC.OperationReply(operations[o]));
    }

    /** `_expire_open_handoffs`: one pass over the jobs that had an open handoff when it began. */
    method ExpireOpenHandoffs(now: Time) returns (ghost order: seq<JobId>)
      requires Valid()
      modifies this
      ensures Valid() && HC.VisitsOpenJobs(old(Tables()), order)
      ensures Tables() == HC.ExpireAll(old(Tables()), order, now)
    {
      ghost var was := Tables();
      var ids: set<JobId> := set h | h in handoffs && Open(handoffs[h]) :: handoffs[h].job;
      ghost var all := ids;
      OpenJobs(was, all);
      order := [];
      hide Inv, HC.ExpireAll, HC.Expire, HC.ExpireAllChanges, HasOpen, NoDuplicates;
      NothingExpiredYet(was, now);
      while ids != {}
        invariant Valid() && ToVisit(all, ids, order)
        invariant Tables() == HC.ExpireAll(was, order, now)
      {
        var job :| job in ids;
        ExpireAllLast(was, order, job, now);
        OneMoreVisit(all, ids, order, job);
        Expire(job, now);
        order := order + [job];
        ids := ids - {job};
      }
    }

    /** ORDER BY created_at LIMIT 1 over the rows a browser may take. */
    method OldestPending(now: Time) returns (pick: Option<HandoffId>)
      ensures pick.None? ==> forall h: HandoffId :: !HC.AwaitsBrowser(Tables(), now, h)
      ensures pick.Some? ==> HC.AwaitsBrowser(Tables(), now, pick.value)
      ensures pick.Some? ==> forall h: HandoffId :: HC.AwaitsBrowser(Tables(), now, h) ==>
        handoffs[pick.value].created <= handoffs[h].created
    {
      var rows := set h: HandoffId | h in handoffs && HC.AwaitsBrowser(Tables(), now, h);
      ghost var all := rows;
      pick := None;
      while rows != {}
        invariant rows <= all
        invariant pick.None? ==> rows == all
        invariant pick.Some? ==> pick.value in all
        invariant pick.Some? ==> forall h :: h in all && h !in rows ==> handoffs[pick.value].created <= handoffs[h].created
      {
        var h :| h in rows;
        if pick.None? || handoffs[h].created < handoffs[pick.value].created {
          pick := Some(h);
        }
        rows := rows - {h};
      }
      assert forall h: HandoffId :: HC.AwaitsBrowser(Tables(), now, h) ==> h in all;
    }

    method ReserveReentry(client: Client, ttl: Time, now: Time)
      returns (r: Result<Reply, Error>, ghost order: seq<JobId>, ghost pick: HandoffId)
      requires Valid()
      modifies this
      ensures Valid()
      ensures !HC.ReentryTtl(ttl) ==> r == Err(HC.Invalid) && Tables() == old(Tables())
      ensures HC.ReentryTtl(ttl) ==>
        && HC.VisitsOpenJobs(old(Tables()), order)
        && HC.Picked(HC.ExpireAll(old(Tables()), order, now), client, now, pick)
        && Answered(HC.ReserveCall(old(Tables()), client, ttl, now, order, pick), old(Tables()), Tables(), r)
    {
      hide HC.Commit, HC.Legal, Inv, Write;
      var was := Begin();
      if !HC.ReentryTtl(ttl) {
        return Err(HC.Invalid), [], 0;
      }
      order := ExpireOpenHandoffs(now);
      ghost var d := Tables();
      ghost var x := HC.ExpireAllChanges(was, order, now);
      if h: HandoffId :| h in handoffs && HC.StartedBy(Tables(), client, now, h) {
        return Ok(HC.ItemReply(h, handoffs[h].secret, false)), order, h;
      }
      assert forall h: HandoffId :: !HC.StartedBy(d, client, now, h);
      var oldest := OldestPending(now);
      if oldest.None? {
        pick := 0;
        return Ok(HC.NothingPending), order, pick;
      }
      var h := oldest.value;
      pick := h;
      var until := if now + ttl <= handoffs[h].expires then now + ttl else handoffs[h].expires;
      ghost var c := Reserve(h, client, now, until);
      HC.AllFresh(was, order, now);
      HC.NoOtherReservation(d, client, now, h);
      HC.Then(was, x, c);
      PutReservation(h, client, now, until);
      return Ok(HC.ItemReply(h, handoffs[h].secret, true)), order, pick;
    }

    method ReleaseReentry(client: Client, h: HandoffId, now: Time)
      returns (r: Result<Reply, Error>, ghost order: seq<JobId>)
      requires Valid()
      modifies this
      ensures Valid() && HC.VisitsOpenJobs(old(Tables()), order)
      ensures Answered(HC.ReleaseReentryCall(old(Tables()), client, h, now, order), old(Tables()), Tables(), r)
    {
      hide HC.Commit, HC.Legal, Inv, Write;
      var was := Begin();
      order := ExpireOpenHandoffs(now);
      ghost var d := Tables();
      if h !in handoffs || handoffs[h].state != Starting {
        Rollback(was);
        return Err(HC.NotStarting), order;
      }
      if handoffs[h].startingBy != Some(client) {
        Rollback(was);
        return Err(HC.ReservedByOther), order;
      }
      HC.Then(was, HC.ExpireAllChanges(was, order, now), Recycle(h, true));
      PutReleased(h);
      return Ok(HC.Done), order;
    }
  }
}
