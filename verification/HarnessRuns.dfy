/**
Whole runs of the harness: any calls in any order, at any clock readings, with any fresh identifiers.
*/
module HarnessRuns {
  import opened Prelude
  import opened HarnessTables
  import opened HarnessLog
  import opened HarnessCalls

  /** The database enumerates open jobs and picks among equals as a query may. */
  ghost predicate Lucky(db: Db, call: Call, now: Time, luck: Luck)
    requires Inv(db)
  {
    match call
    case ReserveReentry(client, _) =>
      VisitsOpenJobs(db, luck.order) && Picked(ExpireAll(db, luck.order, now), client, now, luck.pick)
    case ReleaseReentry(_, _) => VisitsOpenJobs(db, luck.order)
    case _ => true
  }

  ghost function Serve(db: Db, call: Call, now: Time, luck: Luck): (r: Outcome)
    requires Inv(db) && Lucky(db, call, now, luck)
    ensures r.Ok? ==> Legal(db, r.value.0)
  {
    match call
    case CreateJob(_, _, _, _) => Create(db, call)
    case GetJob(j) => Get(db, j, now)
    case AcquireLease(j, holder, ttl) => Acquire(db, j, holder, ttl, now, luck.lease)
    case RenewLease(t, ttl) => RenewCall(db, t, ttl, now)
    case ReleaseLease(t) => Release(db, t, now)
    case UpdateJob(t, expected, target, columns) => UpdateCall(db, t, expected, target, columns, now)
    case CreateHandoff(t, ttl) => HandOff(db, t, ttl, now, luck.handoff, luck.nonce)
    case ClaimHandoffCall(j, nonce, holder, ttl) => Claim(db, j, nonce, holder, ttl, now, luck.lease)
    case StartOperationCall(t, key, payload) => StartOp(db, t, key, payload, now, luck.operation)
    case FinishOperation(t, o, status, result) => FinishOp(db, t, o, status, result, now)
    case ReserveReentry(client, ttl) => ReserveCall(db, client, ttl, now, luck.order, luck.pick)
    case ReleaseReentry(client, h) => ReleaseReentryCall(db, client, h, now, luck.order)
  }

  datatype Step = Step(call: Call, now: Time, luck: Luck)

  /** Commit on success, roll back on error. */
  ghost function Next(db: Db, s: Step): (t: Db)
    requires Inv(db)
    ensures Inv(t)
  {
    if !Lucky(db, s.call, s.now, s.luck) then db
    else
      match Serve(db, s.call, s.now, s.luck)
      case Err(_) => db
      case Ok((cs, _)) => Commit(db, cs)
  }

  ghost function Play(db: Db, steps: seq<Step>): (t: Db)
    requires Inv(db)
    ensures Inv(t)
    decreases |steps|
  {
    if steps == [] then db else Play(Next(db, steps[0]), steps[1..])
  }

  // ---------------------------------------------------------------- the log tells the tables

  lemma {:induction false} CommitKeepsLogInv(db: Db, cs: seq<Change>)
    requires Inv(db) && Legal(db, cs) && LogInv(db)
    ensures LogInv(Commit(db, cs))
    decreases |cs|
  {
    if cs != [] {
      WriteKeepsLogInv(db, cs[0]);
      CommitKeepsLogInv(Write(db, cs[0]), cs[1..]);
    }
  }

  lemma {:induction false} PlayKeepsLogInv(db: Db, steps: seq<Step>)
    requires Inv(db) && LogInv(db)
    ensures LogInv(Play(db, steps))
    decreases |steps|
  {
    if steps != [] {
      var s := steps[0];
      if Lucky(db, s.call, s.now, s.luck) && Serve(db, s.call, s.now, s.luck).Ok? {
        CommitKeepsLogInv(db, Serve(db, s.call, s.now, s.luck).value.0);
      }
      PlayKeepsLogInv(Next(db, s), steps[1..]);
    }
  }

  lemma OpenIsTheLoggedOne(db: Db, j: JobId, v: View)
    requires Inv(db) && HandoffAgrees(v, db, j)
    ensures forall h: HandoffId ::
      OpenFor(db, j, h) <==> h in db.handoffs && v.handoff == Some((h, db.handoffs[h].state == Starting))
  {
    forall h: HandoffId | OpenFor(db, j, h)
      ensures v.handoff == Some((h, db.handoffs[h].state == Starting))
    {
      assert v.handoff.Some? && OpenFor(db, j, v.handoff.value.0);
      OnlyOneOpen(db, j, h);
      OnlyOneOpen(db, j, v.handoff.value.0);
    }
  }

  lemma LoggedStatuses(db: Db, j: JobId, v: View)
    requires OperationsAgree(v, db, j)
    ensures v.operations == (map o | o in db.operations && db.operations[o].job == j :: db.operations[o].status)
  {
  }

  lemma LoggedLease(db: Db, j: JobId, v: View)
    requires Inv(db) && j in db.jobs && LeaseAgrees(v, db, j)
    ensures v.version == db.jobs[j].version && v.generation == db.jobs[j].generation
    ensures v.lease == if j in db.leases then Some(db.jobs[j].generation) else None
  {
  }

  /**
  In every reachable state, replaying a job's events from nothing yields its version, generation,
  lease, open handoff with its state, and all its operation statuses; the generation counts the grants
  and the version the bumping events.
  */
  lemma LogDeterminesTables(steps: seq<Step>, j: JobId)
    requires j in Play(EMPTY, steps).jobs
    ensures var db := Play(EMPTY, steps);
      var v := Replay(db.events, j);
      && v.version == db.jobs[j].version == 1 + Bumps(db.events, j)
      && v.generation == db.jobs[j].generation == Grants(db.events, j)
      && v.lease == (if j in db.leases then Some(db.jobs[j].generation) else None)
      && (forall h: HandoffId :: OpenFor(db, j, h) <==> h in db.handoffs && v.handoff == Some((h, db.handoffs[h].state == Starting)))
      && v.operations == (map o | o in db.operations && db.operations[o].job == j :: db.operations[o].status)
  {
    PlayKeepsLogInv(EMPTY, steps);
    var db := Play(EMPTY, steps);
    assert LogAgrees(db, j);
    var v := Replay(db.events, j);
    hide Play, Replay, Inv, HandoffAgrees, OperationsAgree, LeaseAgrees, LogInv, Bumps, Grants, OpenFor;
    OpenIsTheLoggedOne(db, j, v);
    LoggedStatuses(db, j, v);
    LoggedLease(db, j, v);
  }

  // ---------------------------------------------------------------- constraints that cannot fire

  /** Neither the open-handoff index nor the two "already" conflicts can be hit from a valid state. */
  lemma HandoffConflictsUnreachable(db: Db, call: Call, now: Time, luck: Luck)
    requires Inv(db) && Lucky(db, call, now, luck)
    ensures call.CreateHandoff? ==> Serve(db, call, now, luck) != Err(OpenHandoffExists)
    ensures call.ClaimHandoffCall? ==> Serve(db, call, now, luck) != Err(AlreadyLeased)
  {
    hide HasUnresolved, OperationsInv, IndexInv, RowsInv, LeasesInv, Lucky;
    if call.CreateHandoff? {
      var d := Expire(db, call.token.job, now);
      assert call.token.job in d.leases ==> forall h :: !OpenFor(d, call.token.job, h);
    }
  }

  /** At most one open handoff per job and one starting reservation per client; closed rows hold no secret. */
  lemma ReachableHandoffs(steps: seq<Step>)
    ensures var db := Play(EMPTY, steps);
      && (forall h, k :: h in db.handoffs && k in db.handoffs && h != k ==>
        && !(db.handoffs[h].job == db.handoffs[k].job && Open(db.handoffs[h]) && Open(db.handoffs[k]))
        && !(db.handoffs[h].startingBy.Some? && db.handoffs[h].startingBy == db.handoffs[k].startingBy))
      && (forall h :: h in db.handoffs ==>
        && (db.handoffs[h].secret.Some? <==> Open(db.handoffs[h]))
        && (Open(db.handoffs[h]) ==> db.handoffs[h].job !in db.leases))
  {
    var db := Play(EMPTY, steps);
    forall h, k | h in db.handoffs && k in db.handoffs && h != k
      ensures !(db.handoffs[h].job == db.handoffs[k].job && Open(db.handoffs[h]) && Open(db.handoffs[k]))
      ensures !(db.handoffs[h].startingBy.Some? && db.handoffs[h].startingBy == db.handoffs[k].startingBy)
    {
      assert Compatible(db.handoffs[h], db.handoffs[k]) && RowInv(db.handoffs[h]) && RowInv(db.handoffs[k]);
    }
    assert forall h :: h in db.handoffs ==> RowInv(db.handoffs[h]);
  }

  // ---------------------------------------------------------------- expiry sweeps

  /** One read of each of these jobs, at one clock reading. */
  function Reads(order: seq<JobId>, now: Time, luck: Luck): (r: seq<Step>)
    ensures |r| == |order|
  {
    if order == [] then [] else [Step(GetJob(order[0]), now, luck)] + Reads(order[1..], now, luck)
  }

  /** What a sweep over the open handoffs commits is what reading their jobs one after the other commits. */
  lemma {:induction false} SweepIsReads(db: Db, order: seq<JobId>, now: Time, luck: Luck)
    requires Inv(db) && forall j :: j in order ==> j in db.jobs
    ensures Play(db, Reads(order, now, luck)) == ExpireAll(db, order, now)
    decreases |order|
  {
    hide Inv;
    if order != [] {
      var s := Step(GetJob(order[0]), now, luck);
      ExpireFacts(db, order[0], now);
      assert Next(db, s) == Expire(db, order[0], now);
      ExpireAllUnfold(db, order, now);
      SweepIsReads(Expire(db, order[0], now), order[1..], now, luck);
      assert Reads(order, now, luck)[1..] == Reads(order[1..], now, luck);
    }
  }

  // ---------------------------------------------------------------- no stuck job

  /**
  A lease request succeeds exactly when the job exists and is not terminal, no handoff of it is still
  open at this time, and its lease, if any, is lapsed or the caller's own.
  */
  lemma AcquireSucceedsIff(db: Db, j: JobId, holder: Holder, ttl: Time, now: Time, lease: LeaseId)
    requires Inv(db) && LeaseTtl(ttl) && !LeaseIdUsed(db, lease)
    ensures Acquire(db, j, holder, ttl, now, lease).Ok? <==>
      && j in db.jobs && !Terminal(db.jobs[j].lifecycle)
      && (forall h :: OpenFor(db, j, h) ==> db.handoffs[h].expires <= now)
      && (j in db.leases ==> db.leases[j].expires <= now || db.leases[j].holder == holder)
  {
    hide HasUnresolved, OperationsInv, IndexInv, RowsInv, LeasesInv;
    if j in db.jobs {
      var d := Expire(db, j, now);
      ExpireFacts(db, j, now);
      forall h: HandoffId
        ensures OpenFor(d, j, h) <==> OpenFor(db, j, h) && now < db.handoffs[h].expires
      {
        if h in db.handoffs {
          assert d.handoffs[h] == AfterExpiry(db.handoffs[h], j, now);
        }
      }
      assert !LeaseIdUsed(d, lease);
    }
  }

  // ---------------------------------------------------------------- fencing

  /** What `_require_lease` lets through at a given time. */
  predicate Accepted(db: Db, t: Token, now: Time) {
    && t.job in db.leases && now < db.leases[t.job].expires
    && db.leases[t.job].id == t.lease && db.leases[t.job].generation == t.generation
  }

  /** Issued, and its lease row is gone or belongs to someone else. */
  predicate Superseded(db: Db, t: Token) {
    && t.job in db.jobs && t.generation <= db.jobs[t.job].generation
    && !(t.job in db.leases && db.leases[t.job].id == t.lease && db.leases[t.job].generation == t.generation)
  }

  lemma RequireLeaseIsAccepted(db: Db, t: Token, now: Time)
    requires Inv(db)
    ensures LeaseError(Expire(db, t.job, now), t).None? <==> Accepted(db, t, now)
  {
    ExpireFacts(db, t.job, now);
  }

  lemma WriteKeepsSuperseded(db: Db, c: Change, t: Token)
    requires Inv(db) && Allowed(db, c) && Superseded(db, t)
    ensures Superseded(Write(db, c), t)
  {
    hide HasUnresolved, OperationsInv, IndexInv, ExclusionInv;
    if c.ClaimHandoff? {
      assert RowInv(db.handoffs[c.handoff]);
    }
  }

  lemma {:induction false} CommitKeepsSuperseded(db: Db, cs: seq<Change>, t: Token)
    requires Inv(db) && Legal(db, cs) && Superseded(db, t)
    ensures Superseded(Commit(db, cs), t)
    decreases |cs|
  {
    if cs != [] {
      WriteKeepsSuperseded(db, cs[0], t);
      CommitKeepsSuperseded(Write(db, cs[0]), cs[1..], t);
    }
  }

  /** A superseded token stays rejected in every later state, whatever the clock does. */
  lemma {:induction false} SupersededForever(db: Db, steps: seq<Step>, t: Token, now: Time)
    requires Inv(db) && Superseded(db, t)
    ensures Superseded(Play(db, steps), t) && !Accepted(Play(db, steps), t, now)
    decreases |steps|
  {
    if steps != [] {
      var s := steps[0];
      if Lucky(db, s.call, s.now, s.luck) && Serve(db, s.call, s.now, s.luck).Ok? {
        CommitKeepsSuperseded(db, Serve(db, s.call, s.now, s.luck).value.0, t);
      }
      SupersededForever(Next(db, s), steps[1..], t, now);
    }
  }

  /** Every call that takes a token refuses one that is not accepted, and changes nothing. */
  lemma RejectedTokenChangesNothing(db: Db, s: Step)
    requires Inv(db) && Lucky(db, s.call, s.now, s.luck)
    requires s.call.RenewLease? || s.call.ReleaseLease? || s.call.UpdateJob? || s.call.CreateHandoff?
      || s.call.StartOperationCall? || s.call.FinishOperation?
    requires !Accepted(db, s.call.token, s.now)
    ensures Serve(db, s.call, s.now, s.luck).Err? && Next(db, s) == db
  {
    RequireLeaseIsAccepted(db, s.call.token, s.now);
  }

  /** Superseded, or its row has run out by this time. */
  predicate Lapsed(db: Db, t: Token, at: Time) {
    Superseded(db, t) || (t.job in db.leases && db.leases[t.job].expires <= at && t.generation <= db.leases[t.job].generation)
  }

  predicate RenewsOnlyLive(db: Db, cs: seq<Change>, now: Time) {
    forall i :: 0 <= i < |cs| && cs[i].Renew? ==> cs[i].job in db.leases && now < db.leases[cs[i].job].expires
  }

  lemma AcquireRenewsOnlyLive(db: Db, j: JobId, holder: Holder, ttl: Time, now: Time, lease: LeaseId)
    requires Inv(db) && Acquire(db, j, holder, ttl, now, lease).Ok?
    ensures RenewsOnlyLive(db, Acquire(db, j, holder, ttl, now, lease).value.0, now)
  {
    ExpireFacts(db, j, now);
  }

  lemma RenewRenewsOnlyLive(db: Db, t: Token, ttl: Time, now: Time)
    requires Inv(db) && RenewCall(db, t, ttl, now).Ok?
    ensures RenewsOnlyLive(db, RenewCall(db, t, ttl, now).value.0, now)
  {
    ExpireFacts(db, t.job, now);
  }

  lemma ServeRenewsOnlyLive(db: Db, call: Call, now: Time, luck: Luck)
    requires Inv(db) && Lucky(db, call, now, luck) && Serve(db, call, now, luck).Ok?
    ensures RenewsOnlyLive(db, Serve(db, call, now, luck).value.0, now)
  {
    match call
    case AcquireLease(j, holder, ttl) => AcquireRenewsOnlyLive(db, j, holder, ttl, now, luck.lease);
    case RenewLease(t, ttl) => RenewRenewsOnlyLive(db, t, ttl, now);
    case _ =>
  }

  lemma WriteKeepsLapsed(db: Db, c: Change, t: Token, at: Time)
    requires Inv(db) && Allowed(db, c) && Lapsed(db, t, at) && !(c.Renew? && c.job == t.job)
    ensures Lapsed(Write(db, c), t, at)
  {
    if Superseded(db, t) {
      WriteKeepsSuperseded(db, c, t);
    } else if c.ClaimHandoff? {
      assert OpenFor(db, db.handoffs[c.handoff].job, c.handoff);
    }
  }

  lemma {:induction false} CommitKeepsLapsed(db: Db, cs: seq<Change>, t: Token, at: Time)
    requires Inv(db) && Legal(db, cs) && Lapsed(db, t, at)
    requires forall i :: 0 <= i < |cs| ==> !(cs[i].Renew? && cs[i].job == t.job)
    ensures Lapsed(Commit(db, cs), t, at)
    decreases |cs|
  {
    if cs != [] {
      WriteKeepsLapsed(db, cs[0], t, at);
      CommitKeepsLapsed(Write(db, cs[0]), cs[1..], t, at);
    }
  }

  /** No call of these reads the clock before this time. */
  predicate NotBefore(steps: seq<Step>, at: Time) {
    forall i :: 0 <= i < |steps| ==> at <= steps[i].now
  }

  /** With a clock that never runs backwards past the moment a token ran out, it stays rejected. */
  lemma {:induction false} LapsedForever(db: Db, steps: seq<Step>, t: Token, at: Time, now: Time)
    requires Inv(db) && Lapsed(db, t, at) && at <= now
    requires NotBefore(steps, at)
    ensures Lapsed(Play(db, steps), t, at) && !Accepted(Play(db, steps), t, now)
    decreases |steps|
  {
    if steps != [] {
      var s := steps[0];
      if Lucky(db, s.call, s.now, s.luck) && Serve(db, s.call, s.now, s.luck).Ok? {
        var cs := Serve(db, s.call, s.now, s.luck).value.0;
        if Superseded(db, t) {
          CommitKeepsSuperseded(db, cs, t);
        } else {
          ServeRenewsOnlyLive(db, s.call, s.now, s.luck);
          CommitKeepsLapsed(db, cs, t, at);
        }
      }
      LapsedForever(Next(db, s), steps[1..], t, at, now);
    }
  }

  predicate Held(db: Db, t: Token) {
    t.job in db.leases && db.leases[t.job].id == t.lease && db.leases[t.job].generation == t.generation
  }

  /** The step committed a change that took the token's row away. */
  ghost predicate Supersedes(db: Db, s: Step, t: Token)
    requires Inv(db)
  {
    Held(db, t) && !Held(Next(db, s), t)
  }

  /** One of the steps of this run did. */
  ghost predicate SomeSupersedes(db: Db, steps: seq<Step>, t: Token)
    requires Inv(db)
    decreases |steps|
  {
    steps != [] && (Supersedes(db, steps[0], t) || SomeSupersedes(Next(db, steps[0]), steps[1..], t))
  }

  lemma {:induction false} SupersededByAStep(db: Db, steps: seq<Step>, t: Token)
    requires Inv(db) && Held(db, t)
    ensures Held(Play(db, steps), t) <==> !SomeSupersedes(db, steps, t)
    decreases |steps|
  {
    if steps != [] {
      var d := Next(db, steps[0]);
      if Held(d, t) {
        SupersededByAStep(d, steps[1..], t);
      } else {
        NextKeepsIssued(db, steps[0], t);
        SupersededForever(d, steps[1..], t, 0.0);
      }
    }
  }

  lemma NextKeepsIssued(db: Db, s: Step, t: Token)
    requires Inv(db) && t.job in db.jobs && t.generation <= db.jobs[t.job].generation
    ensures var d := Next(db, s); t.job in d.jobs && t.generation <= d.jobs[t.job].generation
  {
    RunsEvolve(db, [s]);
    assert Play(Next(db, s), []) == Next(db, s) && [s][1..] == [];
  }

  /**
  When a token once issued is refused: some step committed a change that took its row away, or the
  clock has reached the expiry its row now stores.
  */
  lemma RejectedExactlyWhen(before: seq<Step>, steps: seq<Step>, t: Token, now: Time)
    requires Held(Play(EMPTY, before), t)
    ensures var start := Play(EMPTY, before);
      var db := Play(start, steps);
      !Accepted(db, t, now) <==>
        || SomeSupersedes(start, steps, t)
        || (t.job in db.leases && db.leases[t.job].expires <= now)
  {
    SupersededByAStep(Play(EMPTY, before), steps, t);
  }

  ghost predicate RefusedForever(db: Db, t: Token)
    requires Inv(db)
  {
    forall rest, now :: !Accepted(Play(db, rest), t, now)
  }

  ghost predicate RefusedFrom(db: Db, t: Token, at: Time)
    requires Inv(db)
  {
    forall rest, now :: at <= now && NotBefore(rest, at) ==> !Accepted(Play(db, rest), t, now)
  }

  lemma RefusedForeverMeansNow(db: Db, t: Token, now: Time)
    requires Inv(db) && RefusedForever(db, t)
    ensures !Accepted(db, t, now)
  {
    assert Play(db, []) == db;
  }

  lemma RefusedFromMeansNow(db: Db, t: Token, at: Time)
    requires Inv(db) && RefusedFrom(db, t, at)
    ensures !Accepted(db, t, at)
  {
    assert Play(db, []) == db && NotBefore([], at);
  }

  lemma SupersededRefusedForever(db: Db, t: Token)
    requires Inv(db) && Superseded(db, t)
    ensures RefusedForever(db, t)
  {
    hide Inv, Superseded, Accepted;
    forall rest, now
      ensures !Accepted(Play(db, rest), t, now)
    {
      SupersededForever(db, rest, t, now);
    }
  }

  lemma LapsedRefusedFrom(db: Db, t: Token, at: Time)
    requires Inv(db) && Lapsed(db, t, at)
    ensures RefusedFrom(db, t, at)
  {
    hide Inv, Lapsed, Accepted, NotBefore;
    forall rest, now | at <= now && NotBefore(rest, at)
      ensures !Accepted(Play(db, rest), t, now)
    {
      LapsedForever(db, rest, t, at, now);
    }
  }

  /**
  Is a refused token refused for good?  Whatever the clock does, exactly if it is superseded; with a
  clock that never falls behind `at`, exactly if it is refused at `at`.
  */
  lemma RefusedForGoodIff(steps: seq<Step>, t: Token, at: Time)
    requires var db := Play(EMPTY, steps); t.job in db.jobs && t.generation <= db.jobs[t.job].generation
    ensures RefusedForever(Play(EMPTY, steps), t) <==> Superseded(Play(EMPTY, steps), t)
    ensures RefusedFrom(Play(EMPTY, steps), t, at) <==> !Accepted(Play(EMPTY, steps), t, at)
  {
    var db := Play(EMPTY, steps);
    hide Play, RefusedForever, RefusedFrom;
    if Superseded(db, t) {
      SupersededRefusedForever(db, t);
    } else if RefusedForever(db, t) {
      RefusedForeverMeansNow(db, t, db.leases[t.job].expires - 1.0);
    }
    if RefusedFrom(db, t, at) {
      RefusedFromMeansNow(db, t, at);
    } else if !Accepted(db, t, at) {
      LapsedRefusedFrom(db, t, at);
    }
  }

  lemma AfterCreate(j: JobId, luck: Luck)
    ensures var d := Next(EMPTY, Step(CreateJob(j, true, Active, map[]), 0.0, luck));
      d.jobs == map[j := Job(1, 0, Active, map[])] && d.leases == map[] && d.handoffs == map[]
  {
    LegalOne(EMPTY, NewJob(j, Active, map[]));
  }

  lemma AfterFirstLease(d: Db, j: JobId, holder: Holder, luck: Luck)
    requires Inv(d) && d.jobs == map[j := Job(1, 0, Active, map[])] && d.leases == map[] && d.handoffs == map[]
    ensures Next(d, Step(AcquireLease(j, holder, 900.0), 0.0, luck)).leases == map[j := Lease(luck.lease, holder, 1, 900.0)]
  {
    hide HasUnresolved, OperationsInv, IndexInv, RowsInv;
    ExpireFacts(d, j, 0.0);
    assert !HasOpen(d, j) && !LeaseIdUsed(d, luck.lease) && ExpireChanges(d, j, 0.0) == [];
    var c := Grant(j, luck.lease, holder, 0.0 + 900.0);
    LegalOne(d, c);
    assert Acquire(d, j, holder, 900.0, 0.0, luck.lease).Ok? && Acquire(d, j, holder, 900.0, 0.0, luck.lease).value.0 == [c];
  }

  lemma PlayThree(db: Db, a: Step, b: Step, c: Step)
    requires Inv(db)
    ensures Play(db, [a, b]) == Next(Next(db, a), b)
    ensures Play(db, [a, b, c]) == Next(Next(Next(db, a), b), c)
  {
    hide Inv, Next;
    var d := Next(db, a);
    var e := Next(d, b);
    assert [a, b, c][1..] == [b, c] && [b, c][1..] == [c] && [c][1..] == [] && [a, b][1..] == [b] && [b][1..] == [];
    assert Play(e, []) == e && Play(d, [b]) == e;
    assert Play(Next(e, c), []) == Next(e, c) && Play(e, [c]) == Next(e, c) && Play(d, [b, c]) == Next(e, c);
  }

  /**
  An expired lease can look alive again.  Nothing records that it ran out: the call that finds it
  expired rolls its expiry back with its error, and a clock that is set back accepts the token again.
  */
  lemma ExpiredTokenAcceptedAgain(j: JobId, holder: Holder, luck: Luck)
    returns (steps: seq<Step>, t: Token)
    ensures steps == [
      Step(CreateJob(j, true, Active, map[]), 0.0, luck),
      Step(AcquireLease(j, holder, 900.0), 0.0, luck),
      Step(RenewLease(t, 900.0), 1000.0, luck)]
    ensures Play(EMPTY, steps) == Play(EMPTY, steps[..2])
    ensures !Accepted(Play(EMPTY, steps[..2]), t, 1000.0)
    ensures Accepted(Play(EMPTY, steps), t, 500.0)
  {
    t := Token(j, luck.lease, holder, 1, 900.0);
    var a := Step(CreateJob(j, true, Active, map[]), 0.0, luck);
    var b := Step(AcquireLease(j, holder, 900.0), 0.0, luck);
    var c := Step(RenewLease(t, 900.0), 1000.0, luck);
    steps := [a, b, c];
    PlayThree(EMPTY, a, b, c);
    assert steps[..2] == [a, b];
    AfterCreate(j, luck);
    hide Next, Inv, Play;
    AfterFirstLease(Next(EMPTY, a), j, holder, luck);
    RejectedTokenChangesNothing(Next(Next(EMPTY, a), b), c);
  }

  // ---------------------------------------------------------------- what never goes back

  /** Generations and versions only rise; terminal lifecycles are final. */
  ghost predicate JobsEvolve(db: Db, t: Db) {
    forall j :: j in db.jobs ==>
      && j in t.jobs && db.jobs[j].generation <= t.jobs[j].generation && db.jobs[j].version <= t.jobs[j].version
      && (Terminal(db.jobs[j].lifecycle) ==> t.jobs[j].lifecycle == db.jobs[j].lifecycle)
  }

  /** Finished operations are final; a key keeps the payload it was first given; nothing starts twice. */
  predicate OperationEvolves(a: Operation, b: Operation) {
    && b.job == a.job && b.key == a.key && b.payload == a.payload
    && (!Unresolved(a) ==> b == a)
    && (b.status == OpStarted ==> a.status == OpStarted)
  }

  ghost predicate OperationsEvolve(db: Db, t: Db) {
    forall o :: o in db.operations ==> o in t.operations && OperationEvolves(db.operations[o], t.operations[o])
  }

  ghost predicate Evolves(db: Db, t: Db) {
    JobsEvolve(db, t) && OperationsEvolve(db, t)
  }

  lemma WriteEvolvesJobs(db: Db, c: Change)
    requires Inv(db) && Allowed(db, c)
    ensures JobsEvolve(db, Write(db, c))
  {
    hide HasUnresolved, OperationsInv, IndexInv, RowsInv, LeasesInv;
    if c.ClaimHandoff? {
      assert OpenFor(db, db.handoffs[c.handoff].job, c.handoff);
    }
  }

  lemma WriteEvolvesOperations(db: Db, c: Change)
    requires Inv(db) && Allowed(db, c)
    ensures OperationsEvolve(db, Write(db, c))
  {
    hide IndexInv, RowsInv, LeasesInv, ExclusionInv;
    if !c.StartOperation? && !c.Resolve? {
      assert Write(db, c).operations == db.operations;
    }
  }

  lemma GenerationCountsGrants(db: Db, c: Change, j: JobId)
    requires Inv(db) && Allowed(db, c) && j in db.jobs
    ensures Write(db, c).jobs[j].generation == db.jobs[j].generation
      + if (c.Grant? || c.ClaimHandoff?) && JobOf(db, c) == j then 1 else 0
  {
    hide HasUnresolved, OperationsInv, IndexInv, ExclusionInv;
  }

  lemma {:induction false} CommitEvolves(db: Db, cs: seq<Change>)
    requires Inv(db) && Legal(db, cs)
    ensures Evolves(db, Commit(db, cs))
    decreases |cs|
  {
    if cs != [] {
      var d := Write(db, cs[0]);
      WriteEvolvesJobs(db, cs[0]);
      WriteEvolvesOperations(db, cs[0]);
      CommitEvolves(d, cs[1..]);
      EvolvesTransitive(db, d, Commit(db, cs));
    }
  }

  lemma EvolvesTransitive(a: Db, b: Db, c: Db)
    requires Evolves(a, b) && Evolves(b, c)
    ensures Evolves(a, c)
  {
    forall o | o in a.operations
      ensures o in c.operations && OperationEvolves(a.operations[o], c.operations[o])
    {
      assert OperationEvolves(a.operations[o], b.operations[o]) && OperationEvolves(b.operations[o], c.operations[o]);
    }
  }

  /**
  Over any run: a terminal job stays in its lifecycle, a completed or failed operation keeps its row,
  and an operation's key stays bound to the payload it was first given.
  */
  lemma {:induction false} RunsEvolve(db: Db, steps: seq<Step>)
    requires Inv(db)
    ensures Evolves(db, Play(db, steps))
    decreases |steps|
  {
    if steps != [] {
      var s := steps[0];
      if Lucky(db, s.call, s.now, s.luck) && Serve(db, s.call, s.now, s.luck).Ok? {
        CommitEvolves(db, Serve(db, s.call, s.now, s.luck).value.0);
      }
      RunsEvolve(Next(db, s), steps[1..]);
      EvolvesTransitive(db, Next(db, s), Play(db, steps));
    }
  }

  /** In every reachable state a job has at most one unresolved operation, and none once terminal. */
  lemma ReachableOperations(steps: seq<Step>)
    ensures var db := Play(EMPTY, steps);
      && (forall o, p :: o in db.operations && p in db.operations && o != p && db.operations[o].job == db.operations[p].job ==>
        db.operations[o].key != db.operations[p].key && !(Unresolved(db.operations[o]) && Unresolved(db.operations[p])))
      && (forall o :: o in db.operations && Unresolved(db.operations[o]) ==>
        db.operations[o].job in db.jobs && !Terminal(db.jobs[db.operations[o].job].lifecycle))
  {
    assert OperationsInv(Play(EMPTY, steps));
  }
}
