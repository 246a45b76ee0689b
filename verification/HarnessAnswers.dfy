/**
What each harness call answers and what it leaves in the tables, read off the rows: when it succeeds, which
refusal it gives otherwise, and the exact rows afterwards.  `Serve` is the answer of a call and `Next` the
database after it.
*/
module HarnessAnswers {
  import opened Prelude
  import opened HarnessTables
  import opened HarnessCalls
  import opened HarnessRuns

  /** The job has a lease that has not run out. */
  predicate Leased(db: Db, j: JobId, now: Time) {
    j in db.leases && now < db.leases[j].expires
  }

  /** From one second to one day. */
  predicate Valid(ttl: Time) {
    1.0 <= ttl <= 86400.0
  }

  predicate OwnLease(db: Db, t: Token) {
    t.job in db.leases && db.leases[t.job].id == t.lease && db.leases[t.job].generation == t.generation
  }

  ghost predicate SameBut(db: Db, d: Db, jobs: map<JobId, Job>, leases: map<JobId, Lease>, handoffs: map<HandoffId, Handoff>)
  {
    d.jobs == jobs && d.leases == leases && d.handoffs == handoffs && d.operations == db.operations
  }

  /** The tables once the due rows of a job are gone, or of a job that has none. */
  lemma NothingDue(db: Db, j: JobId, now: Time)
    requires Inv(db) && Leased(db, j, now)
    ensures var d := Expire(db, j, now);
      d.jobs == db.jobs && d.leases == db.leases && d.handoffs == db.handoffs && d.operations == db.operations
  {
    ExpireFacts(db, j, now);
    assert forall h :: h in db.handoffs ==> AfterExpiry(db.handoffs[h], j, now) == db.handoffs[h];
  }

  /** A call that commits the expiry and one more change leaves that change's rows. */
  lemma CommitsOne(db: Db, call: Call, now: Time, luck: Luck, x: seq<Change>, c: Change, reply: Reply)
    requires Inv(db) && Lucky(db, call, now, luck) && Legal(db, x) && Allowed(Commit(db, x), c)
    requires Serve(db, call, now, luck) == Ok((x + [c], reply))
    ensures Next(db, Step(call, now, luck)) == Write(Commit(db, x), c)
  {
    Then(db, x, c);
    hide Inv, Legal, Commit, Allowed, Serve, Lucky, Write;
  }

  // ---------------------------------------------------------------- leases

  lemma RenewAnswers(db: Db, t: Token, ttl: Time, now: Time, luck: Luck)
    requires Inv(db)
    ensures var r := Serve(db, RenewLease(t, ttl), now, luck);
      && (r == Err(Invalid) <==> !Valid(ttl))
      && (r == Err(NotLeased) <==> Valid(ttl) && !Leased(db, t.job, now))
      && (r == Err(StaleToken) <==> Valid(ttl) && Leased(db, t.job, now) && !OwnLease(db, t))
      && (r.Ok? <==> Valid(ttl) && Leased(db, t.job, now) && OwnLease(db, t))
    ensures var r := Serve(db, RenewLease(t, ttl), now, luck);
      var d := Next(db, Step(RenewLease(t, ttl), now, luck));
      r.Ok? ==>
        && SameBut(db, d, db.jobs, db.leases[t.job := db.leases[t.job].(expires := now + ttl)], db.handoffs)
        && r.value.1 == TokenReply(Token(t.job, t.lease, db.leases[t.job].holder, t.generation, now + ttl))
        && forall at: Time :: Accepted(d, r.value.1.token, at) <==> at < now + ttl
  {
    hide LeasesInv, HandoffsInv, OperationsInv, HasOpen, HasUnresolved;
    ExpireFacts(db, t.job, now);
    if Valid(ttl) && Leased(db, t.job, now) && OwnLease(db, t) {
      NothingDue(db, t.job, now);
      Then(db, ExpireChanges(db, t.job, now), Renew(t.job, now + ttl));
    }
  }

  lemma ReleaseAnswers(db: Db, t: Token, now: Time, luck: Luck)
    requires Inv(db)
    ensures var r := Serve(db, ReleaseLease(t), now, luck);
      && (r == Err(JobNotFound) <==> t.job !in db.jobs)
      && (r == Err(NotLeased) <==> t.job in db.jobs && !Leased(db, t.job, now))
      && (r == Err(StaleToken) <==> Leased(db, t.job, now) && !OwnLease(db, t))
      && (r.Ok? <==> Leased(db, t.job, now) && OwnLease(db, t))
    ensures var r := Serve(db, ReleaseLease(t), now, luck);
      var d := Next(db, Step(ReleaseLease(t), now, luck));
      r.Ok? ==> SameBut(db, d, db.jobs, db.leases - {t.job}, db.handoffs) && r.value.1 == Done
  {
    hide LeasesInv, HandoffsInv, OperationsInv, HasOpen, HasUnresolved;
    ExpireFacts(db, t.job, now);
    if t.job in db.leases {
      LeasedJob(db, t.job);
    }
    if Leased(db, t.job, now) && OwnLease(db, t) {
      NothingDue(db, t.job, now);
      Then(db, ExpireChanges(db, t.job, now), EndLease(t.job, false));
    }
  }

  /** Someone is asked to take the job over and may still do so. */
  ghost predicate Offered(db: Db, j: JobId, now: Time) {
    exists h :: OpenFor(db, j, h) && now < db.handoffs[h].expires
  }

  lemma OfferedAfterExpiry(db: Db, j: JobId, now: Time)
    requires Inv(db)
    ensures HasOpen(Expire(db, j, now), j) <==> Offered(db, j, now)
  {
    ExpireFacts(db, j, now);
    var d := Expire(db, j, now);
    forall h: HandoffId
      ensures OpenFor(d, j, h) <==> OpenFor(db, j, h) && now < db.handoffs[h].expires
    {
      if h in db.handoffs {
        assert d.handoffs[h] == AfterExpiry(db.handoffs[h], j, now);
      }
    }
  }

  lemma AcquireRefusals(db: Db, j: JobId, holder: Holder, ttl: Time, now: Time, luck: Luck)
    requires Inv(db) && !LeaseIdUsed(db, luck.lease)
    ensures var r := Serve(db, AcquireLease(j, holder, ttl), now, luck);
      var asked := Valid(ttl) && j in db.jobs && !Terminal(db.jobs[j].lifecycle);
      && (r == Err(Invalid) <==> !Valid(ttl))
      && (r == Err(JobNotFound) <==> Valid(ttl) && j !in db.jobs)
      && (r == Err(JobTerminal) <==> Valid(ttl) && j in db.jobs && Terminal(db.jobs[j].lifecycle))
      && (r == Err(OpenHandoffExists) <==> asked && Offered(db, j, now))
      && (r == Err(AlreadyLeased) <==> asked && Leased(db, j, now) && db.leases[j].holder != holder)
      && (r.Ok? <==> asked && !Offered(db, j, now) && (Leased(db, j, now) ==> db.leases[j].holder == holder))
  {
    ExpireFacts(db, j, now);
    OfferedAfterExpiry(db, j, now);
    if j in db.leases {
      NoOffer(db, j, now);
    }
    assert !LeaseIdUsed(Expire(db, j, now), luck.lease);
    hide Inv, HasUnresolved, HasOpen, Offered, Commit, Expire, Write, LeaseIdUsed, Legal, Allowed;
  }

  /** The holder's own lease is extended, and nothing else changes. */
  lemma AcquireExtends(db: Db, j: JobId, holder: Holder, ttl: Time, now: Time, luck: Luck)
    requires Inv(db) && Serve(db, AcquireLease(j, holder, ttl), now, luck).Ok? && Leased(db, j, now)
    ensures var d := Next(db, Step(AcquireLease(j, holder, ttl), now, luck));
      SameBut(db, d, db.jobs, db.leases[j := db.leases[j].(expires := now + ttl)], db.handoffs)
    ensures Serve(db, AcquireLease(j, holder, ttl), now, luck).value.1 ==
      TokenReply(Token(j, db.leases[j].id, holder, db.leases[j].generation, now + ttl))
  {
    hide LeasesInv, HandoffsInv, OperationsInv, HasUnresolved;
    ExpireFacts(db, j, now);
    NothingDue(db, j, now);
    NoOffer(db, j, now);
    NothingOpen(db, Expire(db, j, now), j);
    Then(db, ExpireChanges(db, j, now), Renew(j, now + ttl));
  }

  lemma NothingOpen(db: Db, d: Db, j: JobId)
    requires !HasOpen(db, j) && d.handoffs == db.handoffs
    ensures !HasOpen(d, j)
  {
    assert forall h :: OpenFor(d, j, h) ==> OpenFor(db, j, h);
  }

  /** A new lease is granted under the next generation. */
  lemma AcquireGrants(
    db: Db, j: JobId, holder: Holder, ttl: Time, now: Time, luck: Luck, r: Outcome, d: Db)
    requires Inv(db) && r == Serve(db, AcquireLease(j, holder, ttl), now, luck) && r.Ok? && !Leased(db, j, now)
    requires d == Next(db, Step(AcquireLease(j, holder, ttl), now, luck))
    ensures Granted(db, d, j, Lease(luck.lease, holder, Generation(db, j) + 1, now + ttl), r.value.1)
    ensures Swept(db, d, j, now)
  {
    hide Inv, HasOpen, Write, ExpireChanges, Commit, Legal, Allowed, Swept, Serve, Next;
    var x := ExpireChanges(db, j, now);
    var c := Grant(j, luck.lease, holder, now + ttl);
    AcquireIsGrant(db, j, holder, ttl, now, luck);
    ExpireFacts(db, j, now);
    SweptByExpiry(db, j, now);
    CommitsOne(db, AcquireLease(j, holder, ttl), now, luck, x, c,
      TokenReply(Token(j, luck.lease, holder, db.jobs[j].generation + 1, now + ttl)));
    GrantedRows(Expire(db, j, now), j, luck.lease, holder, now + ttl);
    SweptBefore(db, Expire(db, j, now), d, j, now);
  }

  function Generation(db: Db, j: JobId): nat {
    if j in db.jobs then db.jobs[j].generation else 0
  }

  /** The job has this lease now, one generation and one version on, and the token says the same. */
  predicate Granted(db: Db, d: Db, j: JobId, lease: Lease, reply: Reply) {
    && j in db.jobs
    && d.jobs == db.jobs[j := db.jobs[j].(generation := db.jobs[j].generation + 1, version := db.jobs[j].version + 1)]
    && d.leases == db.leases[j := lease] && d.operations == db.operations
    && reply == TokenReply(Token(j, lease.id, lease.holder, lease.generation, lease.expires))
  }

  lemma AcquireIsGrant(db: Db, j: JobId, holder: Holder, ttl: Time, now: Time, luck: Luck)
    requires Inv(db) && Serve(db, AcquireLease(j, holder, ttl), now, luck).Ok? && !Leased(db, j, now)
    ensures j in db.jobs && Allowed(Expire(db, j, now), Grant(j, luck.lease, holder, now + ttl))
    ensures Serve(db, AcquireLease(j, holder, ttl), now, luck) ==
      Ok((ExpireChanges(db, j, now) + [Grant(j, luck.lease, holder, now + ttl)],
          TokenReply(Token(j, luck.lease, holder, db.jobs[j].generation + 1, now + ttl))))
  {
    hide Inv, HasUnresolved, HasOpen, ExpireChanges, Commit, Legal, Write;
    ExpireFacts(db, j, now);
  }

  lemma GrantedRows(d: Db, j: JobId, lease: LeaseId, holder: Holder, expires: Time)
    requires Inv(d) && Allowed(d, Grant(j, lease, holder, expires))
    ensures var e := Write(d, Grant(j, lease, holder, expires));
      && e.jobs == d.jobs[j := d.jobs[j].(generation := d.jobs[j].generation + 1, version := d.jobs[j].version + 1)]
      && e.leases == d.leases[j := Lease(lease, holder, d.jobs[j].generation + 1, expires)]
      && e.handoffs == d.handoffs && e.operations == d.operations
  {
    hide Inv, HasOpen;
  }

  /** What has run out of a job's handoffs: an open row past its expiry, a reservation past its own. */
  predicate SweptRow(row: Handoff, after: Handoff, j: JobId, now: Time) {
    if row.job == j && (row.state == Pending || row.state == Starting) && row.expires <= now then
      after == row.(state := HandoffState.Expired, secret := None, startingBy := None, startingAt := None, startingExpires := None)
    else if row.job == j && row.state == Starting && row.startingExpires.Some? && row.startingExpires.value <= now then
      after == row.(state := Pending, startingBy := None, startingAt := None, startingExpires := None)
    else after == row
  }

  ghost predicate Swept(db: Db, d: Db, j: JobId, now: Time) {
    && d.handoffs.Keys == db.handoffs.Keys
    && forall h :: h in db.handoffs ==> SweptRow(db.handoffs[h], d.handoffs[h], j, now)
  }

  lemma SweptByExpiry(db: Db, j: JobId, now: Time)
    requires Inv(db)
    ensures Swept(db, Expire(db, j, now), j, now)
  {
    ExpireFacts(db, j, now);
    forall h | h in db.handoffs
      ensures SweptRow(db.handoffs[h], Expire(db, j, now).handoffs[h], j, now)
    {
      assert RowInv(db.handoffs[h]);
    }
  }

  lemma SweptBefore(db: Db, d: Db, e: Db, j: JobId, now: Time)
    requires Swept(db, d, j, now) && e.handoffs == d.handoffs
    ensures Swept(db, e, j, now)
  {
  }

  /** A token that equals its row is accepted at exactly the readings before the expiry it names. */
  lemma TokenLasts(d: Db, t: Token, at: Time)
    requires t.job in d.leases && d.leases[t.job] == Lease(t.lease, t.holder, t.generation, t.expires)
    ensures Accepted(d, t, at) <==> at < t.expires
  {
  }

  lemma NoOffer(db: Db, j: JobId, now: Time)
    requires Inv(db) && j in db.leases
    ensures !Offered(db, j, now) && !HasOpen(db, j)
  {
  }

  // ---------------------------------------------------------------- jobs

  lemma CreateAnswers(db: Db, j: JobId, named: bool, lifecycle: Lifecycle, columns: map<Column, Value>, now: Time, luck: Luck, d: Db)
    requires Inv(db) && d == Next(db, Step(CreateJob(j, named, lifecycle, columns), now, luck))
    ensures var r := Serve(db, CreateJob(j, named, lifecycle, columns), now, luck);
      && (r == Err(Invalid) <==> !named)
      && (r == Err(JobExists) <==> named && j in db.jobs)
      && (r.Ok? <==> named && j !in db.jobs)
      && (r.Ok? ==>
        && SameBut(db, d, db.jobs[j := Job(1, 0, lifecycle, columns)], db.leases, db.handoffs)
        && r.value.1 == JobReply(Job(1, 0, lifecycle, columns)))
  {
    hide HasOpen, HasUnresolved, LeasesInv, HandoffsInv, OperationsInv;
    if named && j !in db.jobs {
      LegalOne(db, NewJob(j, lifecycle, columns));
    }
  }

  /** A read commits what has run out and changes no job. */
  lemma GetAnswers(db: Db, j: JobId, now: Time, luck: Luck, d: Db)
    requires Inv(db) && d == Next(db, Step(GetJob(j), now, luck))
    ensures var r := Serve(db, GetJob(j), now, luck);
      && (r == Err(JobNotFound) <==> j !in db.jobs) && (r.Ok? <==> j in db.jobs)
      && (r.Ok? ==>
        && r.value.1 == JobReply(db.jobs[j]) && d.jobs == db.jobs && d.operations == db.operations
        && d.leases == (if Leased(db, j, now) then db.leases else db.leases - {j}) && Swept(db, d, j, now))
  {
    ExpireFacts(db, j, now);
    SweptByExpiry(db, j, now);
    hide Inv, Swept, ExpireChanges, Legal;
  }

  /** A job that has not ended may fail, be cancelled or be active again; only one not blocked may do anything else. */
  predicate MayBecome(current: Lifecycle, next: Lifecycle) {
    || current == next
    || (current !in {Completed, Failed, Cancelled} && (next in {Active, Failed, Cancelled} || current != Lifecycle.Blocked))
  }

  /** What an update may do: not to a terminal job, not past an unresolved operation, not twice, not backwards. */
  ghost predicate Updatable(db: Db, j: JobId, expected: nat, next: Lifecycle) {
    && j in db.jobs && !Terminal(db.jobs[j].lifecycle) && db.jobs[j].version == expected
    && (forall o :: o in db.operations && db.operations[o].job == j ==>
      db.operations[o].status != OpStarted && db.operations[o].status != OpIndeterminate)
    && MayBecome(db.jobs[j].lifecycle, next)
  }

  lemma UpdateAnswers(
    db: Db, t: Token, expected: nat, target: Option<Lifecycle>, columns: map<Column, Value>, now: Time, luck: Luck,
    r: Outcome, d: Db)
    requires Inv(db) && r == Serve(db, UpdateJob(t, expected, target, columns), now, luck)
    requires d == Next(db, Step(UpdateJob(t, expected, target, columns), now, luck))
    ensures UpdateRight(db, t, expected, target, columns, now, r, d)
  {
    hide Inv, Serve, Next, HasUnresolved;
    UpdateReduces(db, t, expected, target, columns, now, luck);
    if t.job in db.leases {
      LeasedJob(db, t.job);
    }
    UnresolvedSame(db, db, t.job);
    if r.Ok? {
      UpdatedRows(db, t, expected, target, columns, now, luck, r, d);
    }
  }

  lemma LeasedJob(db: Db, j: JobId)
    requires Inv(db) && j in db.leases
    ensures j in db.jobs
  {
  }

  /** The guards on the tables as they stand: a job with a current lease has nothing that is due. */
  lemma UpdateReduces(
    db: Db, t: Token, expected: nat, target: Option<Lifecycle>, columns: map<Column, Value>, now: Time, luck: Luck)
    requires Inv(db)
    ensures var r := Serve(db, UpdateJob(t, expected, target, columns), now, luck);
      if target.None? && columns == map[] then r == Err(Invalid)
      else if !Leased(db, t.job, now) then r == Err(NotLeased)
      else if !OwnLease(db, t) then r == Err(StaleToken)
      else
        && t.job in db.jobs
        && var job := db.jobs[t.job];
          var next := if target.Some? then target.value else job.lifecycle;
          if Terminal(job.lifecycle) then r == Err(JobTerminal)
          else if HasUnresolved(db, t.job) then r == Err(UnresolvedOperation)
          else if job.version != expected then r == Err(VersionChanged)
          else if !MayBecome(job.lifecycle, next) then r == Err(IllegalTransition)
          else r == Ok((ExpireChanges(db, t.job, now) + [Update(t.job, next, columns)],
                        JobReply(Job(expected + 1, job.generation, next, job.columns + columns))))
  {
    hide Inv, HasOpen, HasUnresolved, ExpireChanges, Commit, Legal, Write, Allowed;
    ExpireFacts(db, t.job, now);
    if Leased(db, t.job, now) {
      NothingDue(db, t.job, now);
      LeasedJob(db, t.job);
      UnresolvedSame(db, db, t.job);
      UnresolvedSame(db, Expire(db, t.job, now), t.job);
    }
  }

  ghost predicate UpdateRight(
    db: Db, t: Token, expected: nat, target: Option<Lifecycle>, columns: map<Column, Value>, now: Time, r: Outcome, d: Db)
  {
    var some := target.Some? || columns != map[];
    var held := some && Leased(db, t.job, now) && OwnLease(db, t);
    && (r == Err(Invalid) <==> !some)
    && (r == Err(NotLeased) <==> some && !Leased(db, t.job, now))
    && (r == Err(StaleToken) <==> some && Leased(db, t.job, now) && !OwnLease(db, t))
    && (held ==>
      && t.job in db.jobs
      && var job := db.jobs[t.job];
        var next := if target.Some? then target.value else job.lifecycle;
        && (r == Err(JobTerminal) <==> Terminal(job.lifecycle))
        && (r == Err(UnresolvedOperation) <==> !Terminal(job.lifecycle) && HasUnresolved(db, t.job))
        && (r == Err(VersionChanged) <==>
          !Terminal(job.lifecycle) && !HasUnresolved(db, t.job) && job.version != expected)
        && (r == Err(IllegalTransition) <==>
          !Terminal(job.lifecycle) && !HasUnresolved(db, t.job) && job.version == expected && !MayBecome(job.lifecycle, next))
        && (r.Ok? <==> Updatable(db, t.job, expected, next))
        && (r.Ok? ==>
          && SameBut(db, d,
              db.jobs[t.job := Job(expected + 1, job.generation, next, job.columns + columns)], db.leases, db.handoffs)
          && r.value.1 == JobReply(Job(expected + 1, job.generation, next, job.columns + columns))))
  }

  lemma UnresolvedSame(db: Db, d: Db, j: JobId)
    requires d.operations == db.operations
    ensures HasUnresolved(d, j) <==> HasUnresolved(db, j)
    ensures HasUnresolved(db, j) <==> !(forall o :: o in db.operations && db.operations[o].job == j ==>
      db.operations[o].status != OpStarted && db.operations[o].status != OpIndeterminate)
  {
  }

  lemma UpdatedRows(
    db: Db, t: Token, expected: nat, target: Option<Lifecycle>, columns: map<Column, Value>, now: Time, luck: Luck,
    r: Outcome, d: Db)
    requires Inv(db) && r == Serve(db, UpdateJob(t, expected, target, columns), now, luck) && r.Ok?
    requires d == Next(db, Step(UpdateJob(t, expected, target, columns), now, luck)) && Leased(db, t.job, now)
    ensures t.job in db.jobs
    ensures var job := db.jobs[t.job];
      var next := if target.Some? then target.value else job.lifecycle;
      SameBut(db, d,
        db.jobs[t.job := Job(job.version + 1, job.generation, next, job.columns + columns)], db.leases, db.handoffs)
  {
    hide Inv, HasOpen, HasUnresolved, ExpireChanges, Commit, Legal, Next, Serve;
    UpdateReduces(db, t, expected, target, columns, now, luck);
    NothingDue(db, t.job, now);
    LeasedJob(db, t.job);
    UnresolvedSame(db, Expire(db, t.job, now), t.job);
    var next := if target.Some? then target.value else db.jobs[t.job].lifecycle;
    CommitsOne(db, UpdateJob(t, expected, target, columns), now, luck, ExpireChanges(db, t.job, now),
      Update(t.job, next, columns), r.value.1);
  }

  // ---------------------------------------------------------------- handoffs

  /** The offer a handoff makes: a fresh secret, good until now + ttl, that nobody has taken up. */
  function Offer(j: JobId, nonce: Nonce, now: Time, ttl: Time): Handoff {
    Handoff(j, NonceHash(nonce), Some(nonce), Pending, now, now + ttl, None, None, None, None)
  }

  lemma HandOffReduces(db: Db, t: Token, ttl: Time, now: Time, luck: Luck)
    requires Inv(db) && !HandoffIdUsed(db, luck.handoff, luck.nonce)
    ensures var r := Serve(db, CreateHandoff(t, ttl), now, luck);
      if !Valid(ttl) then r == Err(Invalid)
      else if !Leased(db, t.job, now) then r == Err(NotLeased)
      else if !OwnLease(db, t) then r == Err(StaleToken)
      else
        && t.job in db.jobs
        && if Terminal(db.jobs[t.job].lifecycle) then r == Err(JobTerminal)
           else r == Ok((ExpireChanges(db, t.job, now) + [OpenHandoff(t.job, luck.handoff, luck.nonce, now, now + ttl)],
                         HandoffReply(luck.handoff, luck.nonce, now + ttl)))
  {
    hide Inv, HasOpen, HasUnresolved, ExpireChanges, Commit, Legal, Write, Allowed;
    ExpireFacts(db, t.job, now);
    if Leased(db, t.job, now) {
      NothingDue(db, t.job, now);
      LeasedJob(db, t.job);
      NoOffer(db, t.job, now);
      NothingOpen(db, Expire(db, t.job, now), t.job);
    }
  }

  ghost predicate HandOffRight(db: Db, t: Token, ttl: Time, now: Time, luck: Luck, r: Outcome, d: Db) {
    && (r == Err(Invalid) <==> !Valid(ttl))
    && (r == Err(NotLeased) <==> Valid(ttl) && !Leased(db, t.job, now))
    && (r == Err(StaleToken) <==> Valid(ttl) && Leased(db, t.job, now) && !OwnLease(db, t))
    && (Valid(ttl) && Leased(db, t.job, now) && OwnLease(db, t) ==>
      && t.job in db.jobs
      && var job := db.jobs[t.job];
        && (r == Err(JobTerminal) <==> Terminal(job.lifecycle)) && (r.Ok? <==> !Terminal(job.lifecycle))
        && (r.Ok? ==>
          && r.value.1 == HandoffReply(luck.handoff, luck.nonce, now + ttl)
          && SameBut(db, d, db.jobs[t.job := job.(version := job.version + 1)], db.leases - {t.job},
              db.handoffs[luck.handoff := Offer(t.job, luck.nonce, now, ttl)])))
  }

  lemma HandOffAnswers(db: Db, t: Token, ttl: Time, now: Time, luck: Luck, r: Outcome, d: Db)
    requires Inv(db) && !HandoffIdUsed(db, luck.handoff, luck.nonce)
    requires r == Serve(db, CreateHandoff(t, ttl), now, luck) && d == Next(db, Step(CreateHandoff(t, ttl), now, luck))
    ensures HandOffRight(db, t, ttl, now, luck, r, d)
  {
    hide Inv, Serve, Next;
    HandOffReduces(db, t, ttl, now, luck);
    if r.Ok? {
      NothingDue(db, t.job, now);
      HandedRows(db, t, ttl, now, luck, r, d);
    }
  }

  lemma HandedRows(db: Db, t: Token, ttl: Time, now: Time, luck: Luck, r: Outcome, d: Db)
    requires Inv(db) && r == Serve(db, CreateHandoff(t, ttl), now, luck) && r.Ok? && Leased(db, t.job, now)
    requires !HandoffIdUsed(db, luck.handoff, luck.nonce)
    requires d == Next(db, Step(CreateHandoff(t, ttl), now, luck))
    ensures t.job in db.jobs
    ensures SameBut(db, d, db.jobs[t.job := db.jobs[t.job].(version := db.jobs[t.job].version + 1)], db.leases - {t.job},
      db.handoffs[luck.handoff := Offer(t.job, luck.nonce, now, ttl)])
  {
    hide Inv, HasOpen, HasUnresolved, ExpireChanges, Commit, Legal, Next, Serve, HandoffIdUsed;
    HandOffReduces(db, t, ttl, now, luck);
    NothingDue(db, t.job, now);
    var c := OpenHandoff(t.job, luck.handoff, luck.nonce, now, now + ttl);
    HandOffAllowed(db, t, ttl, now, luck);
    CommitsOne(db, CreateHandoff(t, ttl), now, luck, ExpireChanges(db, t.job, now), c, r.value.1);
  }

  lemma HandOffAllowed(db: Db, t: Token, ttl: Time, now: Time, luck: Luck)
    requires Inv(db) && Leased(db, t.job, now) && Serve(db, CreateHandoff(t, ttl), now, luck).Ok?
    ensures Allowed(Expire(db, t.job, now), OpenHandoff(t.job, luck.handoff, luck.nonce, now, now + ttl))
  {
    hide Inv, HasOpen, HasUnresolved, ExpireChanges, Commit, Legal, Write;
    ExpireFacts(db, t.job, now);
    NothingDue(db, t.job, now);
    LeasedJob(db, t.job);
  }

  // ---------------------------------------------------------------- claims

  /** An offer of the job with this secret that has not run out. */
  predicate Claimable(db: Db, j: JobId, nonce: Nonce, h: HandoffId, now: Time) {
    && h in db.handoffs && db.handoffs[h].job == j && db.handoffs[h].nonceHash == NonceHash(nonce)
    && (db.handoffs[h].state == Pending || db.handoffs[h].state == Starting) && now < db.handoffs[h].expires
  }

  lemma ClaimReduces(db: Db, j: JobId, nonce: Nonce, holder: Holder, ttl: Time, now: Time, luck: Luck, h: HandoffId)
    requires Inv(db) && !LeaseIdUsed(db, luck.lease) && j in db.jobs && HasNonce(db, j, nonce, h)
    ensures var r := Serve(db, ClaimHandoffCall(j, nonce, holder, ttl), now, luck);
      if !Valid(ttl) then r == Err(Invalid)
      else if Terminal(db.jobs[j].lifecycle) then r == Err(JobTerminal)
      else if !Claimable(db, j, nonce, h, now) then r == Err(NotClaimable)
      else r == Ok((ExpireChanges(db, j, now) + [ClaimHandoff(h, luck.lease, holder, now + ttl)],
                    TokenReply(Token(j, luck.lease, holder, db.jobs[j].generation + 1, now + ttl))))
  {
    hide Inv, HasOpen, HasUnresolved, ExpireChanges, Commit, Legal, Write, Allowed, HandoffByNonce, Expire, LeaseIdUsed, Claimable;
    OfferAfterExpiry(db, j, nonce, h, now, luck.lease);
  }

  lemma OfferAfterExpiry(db: Db, j: JobId, nonce: Nonce, h: HandoffId, now: Time, lease: LeaseId)
    requires Inv(db) && !LeaseIdUsed(db, lease) && HasNonce(db, j, nonce, h)
    ensures var d := Expire(db, j, now);
      && HandoffByNonce(d, j, nonce) == Some(h) && h in d.handoffs && d.jobs == db.jobs && !LeaseIdUsed(d, lease)
      && (Open(d.handoffs[h]) && now < d.handoffs[h].expires <==> Claimable(db, j, nonce, h, now))
      && (Claimable(db, j, nonce, h, now) ==> j !in d.leases)
  {
    hide Inv, HasOpen, ExpireChanges, Commit, Expire, HandoffByNonce;
    ExpireFacts(db, j, now);
    var d := Expire(db, j, now);
    assert d.handoffs[h] == AfterExpiry(db.handoffs[h], j, now);
    OnlyNonce(d, j, nonce, h);
    if Claimable(db, j, nonce, h, now) {
      OfferedNotLeased(db, j, h);
    }
  }

  lemma OnlyNonce(d: Db, j: JobId, nonce: Nonce, h: HandoffId)
    requires Inv(d) && HasNonce(d, j, nonce, h)
    ensures HandoffByNonce(d, j, nonce) == Some(h)
  {
    var k := HandoffByNonce(d, j, nonce).value;
    assert h == k || Compatible(d.handoffs[h], d.handoffs[k]);
  }

  lemma OfferedNotLeased(db: Db, j: JobId, h: HandoffId)
    requires Inv(db) && OpenFor(db, j, h)
    ensures j !in db.leases
  {
  }

  lemma NoSecretAfterExpiry(db: Db, j: JobId, nonce: Nonce, now: Time)
    requires Inv(db) && forall h :: !HasNonce(db, j, nonce, h)
    ensures forall h :: !HasNonce(Expire(db, j, now), j, nonce, h)
  {
    ExpireFacts(db, j, now);
    hide Inv, ExpireChanges, Commit, Expire;
    forall h
      ensures !HasNonce(Expire(db, j, now), j, nonce, h)
    {
      if h in db.handoffs {
        assert !HasNonce(db, j, nonce, h);
        assert Expire(db, j, now).handoffs[h] == AfterExpiry(db.handoffs[h], j, now);
      }
    }
  }

  /** Without an offer under this secret there is nothing to claim. */
  lemma ClaimNeedsAnOffer(db: Db, j: JobId, nonce: Nonce, holder: Holder, ttl: Time, now: Time, luck: Luck)
    requires Inv(db) && forall h :: !HasNonce(db, j, nonce, h)
    ensures var r := Serve(db, ClaimHandoffCall(j, nonce, holder, ttl), now, luck);
      if !Valid(ttl) then r == Err(Invalid)
      else if j !in db.jobs then r == Err(JobNotFound)
      else if Terminal(db.jobs[j].lifecycle) then r == Err(JobTerminal)
      else r == Err(HandoffNotFound)
  {
    hide Inv, HasOpen, HasUnresolved, ExpireChanges, Commit, Legal, Write, Allowed, Expire, HasNonce;
    if j in db.jobs {
      NoSecretAfterExpiry(db, j, nonce, now);
    }
  }

  /**
  A claim succeeds exactly if the job is not terminal and the offer has not run out; the job then has the new
  lease under the next generation, and the offer is taken up and keeps no secret.
  */
  lemma ClaimAnswers(
    db: Db, j: JobId, nonce: Nonce, holder: Holder, ttl: Time, now: Time, luck: Luck, h: HandoffId, r: Outcome, d: Db)
    requires Inv(db) && !LeaseIdUsed(db, luck.lease) && j in db.jobs && HasNonce(db, j, nonce, h)
    requires r == Serve(db, ClaimHandoffCall(j, nonce, holder, ttl), now, luck)
    requires d == Next(db, Step(ClaimHandoffCall(j, nonce, holder, ttl), now, luck))
    ensures r == Err(Invalid) <==> !Valid(ttl)
    ensures r == Err(JobTerminal) <==> Valid(ttl) && Terminal(db.jobs[j].lifecycle)
    ensures r == Err(NotClaimable) <==>
      Valid(ttl) && !Terminal(db.jobs[j].lifecycle) && !Claimable(db, j, nonce, h, now)
    ensures r.Ok? <==> Valid(ttl) && !Terminal(db.jobs[j].lifecycle) && Claimable(db, j, nonce, h, now)
    ensures r.Ok? ==>
      && Granted(db, d, j, Lease(luck.lease, holder, db.jobs[j].generation + 1, now + ttl), r.value.1)
      && d.handoffs == db.handoffs[h := Taken(db.handoffs[h], holder)]
  {
    ClaimReduces(db, j, nonce, holder, ttl, now, luck, h);
    hide Inv, Serve, Next;
    if r.Ok? {
      ClaimedRows(db, j, nonce, holder, ttl, now, luck, h, r, d);
    }
  }

  /** The row of an offer that has been taken up. */
  function Taken(row: Handoff, holder: Holder): Handoff {
    row.(state := Claimed, secret := None, claimedBy := Some(holder), startingBy := None, startingAt := None,
         startingExpires := None)
  }

  lemma ClaimedRows(
    db: Db, j: JobId, nonce: Nonce, holder: Holder, ttl: Time, now: Time, luck: Luck, h: HandoffId, r: Outcome, d: Db)
    requires Inv(db) && !LeaseIdUsed(db, luck.lease) && j in db.jobs && HasNonce(db, j, nonce, h)
    requires r == Serve(db, ClaimHandoffCall(j, nonce, holder, ttl), now, luck) && r.Ok?
    requires d == Next(db, Step(ClaimHandoffCall(j, nonce, holder, ttl), now, luck))
    requires Claimable(db, j, nonce, h, now)
    ensures Granted(db, d, j, Lease(luck.lease, holder, db.jobs[j].generation + 1, now + ttl), r.value.1)
    ensures d.handoffs == db.handoffs[h := Taken(db.handoffs[h], holder)]
  {
    hide Inv, Serve, Next, Expire, LeaseIdUsed, Taken;
    var e := Expire(db, j, now);
    ClaimReduces(db, j, nonce, holder, ttl, now, luck, h);
    ClaimTables(db, j, h, holder, now);
    ClaimCommits(db, j, nonce, holder, ttl, now, luck, h, r);
    SameButOne(e.handoffs, db.handoffs, h, Taken(db.handoffs[h], holder));
  }

  lemma ClaimCommits(
    db: Db, j: JobId, nonce: Nonce, holder: Holder, ttl: Time, now: Time, luck: Luck, h: HandoffId, r: Outcome)
    requires Inv(db) && !LeaseIdUsed(db, luck.lease) && j in db.jobs && HasNonce(db, j, nonce, h)
    requires r == Serve(db, ClaimHandoffCall(j, nonce, holder, ttl), now, luck) && r.Ok?
    requires Claimable(db, j, nonce, h, now)
    ensures var e := Expire(db, j, now);
      ClaimedIn(e, Next(db, Step(ClaimHandoffCall(j, nonce, holder, ttl), now, luck)), h, luck.lease, holder, now + ttl)
  {
    hide Inv, HasOpen, HasUnresolved, ExpireChanges, Legal, Next, Serve, Write, Allowed, LeaseIdUsed, HandoffByNonce, ClaimedIn;
    var c := ClaimHandoff(h, luck.lease, holder, now + ttl);
    var e := Expire(db, j, now);
    ClaimReduces(db, j, nonce, holder, ttl, now, luck, h);
    OfferAfterExpiry(db, j, nonce, h, now, luck.lease);
    ClaimAllowed(e, h, luck.lease, holder, now + ttl);
    ClaimWrites(e, h, luck.lease, holder, now + ttl);
    CommitsOne(db, ClaimHandoffCall(j, nonce, holder, ttl), now, luck, ExpireChanges(db, j, now), c, r.value.1);
  }

  predicate ClaimedIn(e: Db, w: Db, h: HandoffId, lease: LeaseId, holder: Holder, expires: Time) {
    && h in e.handoffs && e.handoffs[h].job in e.jobs
    && var j := e.handoffs[h].job;
      && w.jobs == e.jobs[j := e.jobs[j].(generation := e.jobs[j].generation + 1, version := e.jobs[j].version + 1)]
      && w.leases == e.leases[j := Lease(lease, holder, e.jobs[j].generation + 1, expires)]
      && w.handoffs == e.handoffs[h := Taken(e.handoffs[h], holder)] && w.operations == e.operations
  }

  lemma ClaimTables(db: Db, j: JobId, h: HandoffId, holder: Holder, now: Time)
    requires Inv(db) && OpenFor(db, j, h) && now < db.handoffs[h].expires
    ensures var e := Expire(db, j, now);
      && e.jobs == db.jobs && e.leases == db.leases && e.operations == db.operations
      && e.handoffs.Keys == db.handoffs.Keys && (forall k :: k in db.handoffs && k != h ==> e.handoffs[k] == db.handoffs[k])
      && Taken(e.handoffs[h], holder) == Taken(db.handoffs[h], holder)
      && e.handoffs[h].job == j
  {
    OnlyOfferSwept(db, j, h, now);
    OfferedNotLeased(db, j, h);
    ExpireFacts(db, j, now);
    hide Inv, ExpireChanges, Commit, Expire, AfterExpiry;
  }

  lemma SameButOne(a: map<HandoffId, Handoff>, b: map<HandoffId, Handoff>, h: HandoffId, row: Handoff)
    requires a.Keys == b.Keys && forall k :: k in b && k != h ==> a[k] == b[k]
    ensures a[h := row] == b[h := row]
  {
  }

  lemma ClaimAllowed(e: Db, h: HandoffId, lease: LeaseId, holder: Holder, expires: Time)
    requires h in e.handoffs && Open(e.handoffs[h]) && !LeaseIdUsed(e, lease)
    ensures Allowed(e, ClaimHandoff(h, lease, holder, expires))
  {
  }

  lemma ClaimWrites(e: Db, h: HandoffId, lease: LeaseId, holder: Holder, expires: Time)
    requires Inv(e) && Allowed(e, ClaimHandoff(h, lease, holder, expires))
    ensures ClaimedIn(e, Write(e, ClaimHandoff(h, lease, holder, expires)), h, lease, holder, expires)
  {
    hide HasOpen, HasUnresolved;
  }

  /** Nothing but this offer of the job is open, so expiry touches at most its reservation. */
  lemma OnlyOfferSwept(db: Db, j: JobId, h: HandoffId, now: Time)
    requires Inv(db) && OpenFor(db, j, h) && now < db.handoffs[h].expires
    ensures var e := Expire(db, j, now);
      && e.handoffs.Keys == db.handoffs.Keys
      && (forall k :: k in db.handoffs && k != h ==> e.handoffs[k] == db.handoffs[k])
      && (e.handoffs[h] == db.handoffs[h]
        || e.handoffs[h] == db.handoffs[h].(state := Pending, startingBy := None, startingAt := None, startingExpires := None))
  {
    ExpireFacts(db, j, now);
    var e := Expire(db, j, now);
    forall k | k in db.handoffs && k != h
      ensures e.handoffs[k] == db.handoffs[k]
    {
      assert e.handoffs[k] == AfterExpiry(db.handoffs[k], j, now);
      assert Compatible(db.handoffs[k], db.handoffs[h]);
    }
    assert e.handoffs[h] == AfterExpiry(db.handoffs[h], j, now);
  }

  /** A created offer can be claimed at exactly the readings before the expiry it was given. */
  lemma OfferLastsUntil(
    db: Db, t: Token, ttl: Time, now: Time, luck: Luck, d: Db, holder: Holder, span: Time, at: Time, fate: Luck)
    requires Inv(db) && Inv(d) && !HandoffIdUsed(db, luck.handoff, luck.nonce)
    requires Serve(db, CreateHandoff(t, ttl), now, luck).Ok? && d == Next(db, Step(CreateHandoff(t, ttl), now, luck))
    requires Valid(span) && !LeaseIdUsed(d, fate.lease)
    ensures Serve(d, ClaimHandoffCall(t.job, luck.nonce, holder, span), at, fate).Ok? <==> at < now + ttl
  {
    HandOffAnswers(db, t, ttl, now, luck, Serve(db, CreateHandoff(t, ttl), now, luck), d);
    hide Inv, Serve, Next;
    assert HasNonce(d, t.job, luck.nonce, luck.handoff);
    ClaimAnswers(d, t.job, luck.nonce, holder, span, at, fate, luck.handoff,
      Serve(d, ClaimHandoffCall(t.job, luck.nonce, holder, span), at, fate),
      Next(d, Step(ClaimHandoffCall(t.job, luck.nonce, holder, span), at, fate)));
  }

  // ---------------------------------------------------------------- operations

  /** The operation this key of the job names. */
  predicate Keyed(db: Db, j: JobId, key: Key, o: OperationId) {
    o in db.operations && db.operations[o].job == j && db.operations[o].key == key
  }

  lemma OnlyKey(d: Db, j: JobId, key: Key, o: OperationId)
    requires Inv(d) && HasKey(d, j, key, o)
    ensures KeyedOperation(d, j, key) == Some(o)
  {
  }

  lemma KeyedSame(db: Db, d: Db, j: JobId, key: Key)
    requires d.operations == db.operations
    ensures forall o :: HasKey(d, j, key, o) <==> Keyed(db, j, key, o)
  {
  }

  /** What holds before any operation call: the token is the current lease, or it is refused. */
  predicate Refused(db: Db, t: Token, now: Time, r: Outcome) {
    if !Leased(db, t.job, now) then r == Err(NotLeased) else !OwnLease(db, t) && r == Err(StaleToken)
  }

  /** A key that is known answers from its row: the same row for the same payload, a refusal for another. */
  lemma KnownKeyAnswers(
    db: Db, t: Token, key: Key, payload: Payload, now: Time, luck: Luck, o: OperationId, r: Outcome, d: Db)
    requires Inv(db) && Keyed(db, t.job, key, o)
    requires r == Serve(db, StartOperationCall(t, key, payload), now, luck)
    requires d == Next(db, Step(StartOperationCall(t, key, payload), now, luck))
    ensures !(Leased(db, t.job, now) && OwnLease(db, t)) ==> Refused(db, t, now, r)
    ensures Leased(db, t.job, now) && OwnLease(db, t) ==>
      && t.job in db.jobs
      && (r == Err(JobTerminal) <==> Terminal(db.jobs[t.job].lifecycle))
      && (r == Err(PayloadConflict) <==>
        !Terminal(db.jobs[t.job].lifecycle) && db.operations[o].payload != payload)
      && (r.Ok? <==> !Terminal(db.jobs[t.job].lifecycle) && db.operations[o].payload == payload)
      && (r.Ok? ==> r.value.1 == StartReply(o, false, db.operations[o]) && SameBut(db, d, db.jobs, db.leases, db.handoffs))
  {
    hide Inv, HasOpen, HasUnresolved, ExpireChanges, Legal, Write, Allowed, Commit, KeyedOperation;
    ExpireFacts(db, t.job, now);
    if Leased(db, t.job, now) {
      NothingDue(db, t.job, now);
      LeasedJob(db, t.job);
      KeyedSame(db, Expire(db, t.job, now), t.job, key);
      OnlyKey(Expire(db, t.job, now), t.job, key, o);
    }
  }

  lemma StartReduces(db: Db, t: Token, key: Key, payload: Payload, now: Time, luck: Luck)
    requires Inv(db) && luck.operation !in db.operations && forall o :: !Keyed(db, t.job, key, o)
    ensures var r := Serve(db, StartOperationCall(t, key, payload), now, luck);
      if !(Leased(db, t.job, now) && OwnLease(db, t)) then Refused(db, t, now, r)
      else
        && t.job in db.jobs
        && if Terminal(db.jobs[t.job].lifecycle) then r == Err(JobTerminal)
           else if HasUnresolved(db, t.job) then r == Err(UnresolvedOperation)
           else r == Ok((ExpireChanges(db, t.job, now) + [StartOperation(t.job, luck.operation, key, payload)],
                         StartReply(luck.operation, true, Operation(t.job, key, payload, OpStarted, None))))
  {
    hide Inv, HasOpen, HasUnresolved, ExpireChanges, Legal, Write, Allowed, Commit;
    ExpireFacts(db, t.job, now);
    if Leased(db, t.job, now) {
      NothingDue(db, t.job, now);
      LeasedJob(db, t.job);
      KeyedSame(db, Expire(db, t.job, now), t.job, key);
      UnresolvedSame(db, Expire(db, t.job, now), t.job);
    }
  }

  /** A new key starts one operation, unless the job is terminal or has one that is not resolved. */
  lemma NewKeyAnswers(db: Db, t: Token, key: Key, payload: Payload, now: Time, luck: Luck, r: Outcome, d: Db)
    requires Inv(db) && luck.operation !in db.operations && forall o :: !Keyed(db, t.job, key, o)
    requires r == Serve(db, StartOperationCall(t, key, payload), now, luck)
    requires d == Next(db, Step(StartOperationCall(t, key, payload), now, luck))
    ensures !(Leased(db, t.job, now) && OwnLease(db, t)) ==> Refused(db, t, now, r)
    ensures Leased(db, t.job, now) && OwnLease(db, t) ==>
      && t.job in db.jobs
      && (r == Err(JobTerminal) <==> Terminal(db.jobs[t.job].lifecycle))
      && (r == Err(UnresolvedOperation) <==> !Terminal(db.jobs[t.job].lifecycle) && HasUnresolved(db, t.job))
      && (r.Ok? <==> !Terminal(db.jobs[t.job].lifecycle) && !HasUnresolved(db, t.job))
      && (r.Ok? ==>
        && r.value.1 == StartReply(luck.operation, true, Operation(t.job, key, payload, OpStarted, None))
        && d.jobs == db.jobs && d.leases == db.leases && d.handoffs == db.handoffs
        && d.operations == db.operations[luck.operation := Operation(t.job, key, payload, OpStarted, None)])
  {
    hide Inv, HasOpen, HasUnresolved, ExpireChanges, Legal, Write, Allowed, Commit, Serve, Next;
    StartReduces(db, t, key, payload, now, luck);
    if r.Ok? {
      NothingDue(db, t.job, now);
      StartAllowed(db, t, key, payload, now, luck);
      CommitsOne(db, StartOperationCall(t, key, payload), now, luck, ExpireChanges(db, t.job, now),
        StartOperation(t.job, luck.operation, key, payload), r.value.1);
      StartWrites(Expire(db, t.job, now), t.job, luck.operation, key, payload);
    }
  }

  lemma StartAllowed(db: Db, t: Token, key: Key, payload: Payload, now: Time, luck: Luck)
    requires Inv(db) && luck.operation !in db.operations && forall o :: !Keyed(db, t.job, key, o)
    requires Leased(db, t.job, now) && t.job in db.jobs && !Terminal(db.jobs[t.job].lifecycle) && !HasUnresolved(db, t.job)
    ensures Allowed(Expire(db, t.job, now), StartOperation(t.job, luck.operation, key, payload))
  {
    hide Inv, HasUnresolved, Expire;
    NothingDue(db, t.job, now);
    KeyedSame(db, Expire(db, t.job, now), t.job, key);
    UnresolvedSame(db, Expire(db, t.job, now), t.job);
    forall k | k in db.operations
      ensures !(db.operations[k].job == t.job && db.operations[k].key == key)
    {
      assert !Keyed(db, t.job, key, k);
    }
  }

  lemma StartWrites(e: Db, j: JobId, o: OperationId, key: Key, payload: Payload)
    requires Inv(e) && Allowed(e, StartOperation(j, o, key, payload))
    ensures var w := Write(e, StartOperation(j, o, key, payload));
      && w.jobs == e.jobs && w.leases == e.leases && w.handoffs == e.handoffs
      && w.operations == e.operations[o := Operation(j, key, payload, OpStarted, None)]
  {
    hide Inv, HasUnresolved;
  }

  /** A verdict that is there already: given again it is confirmed, and another one is refused once it is definite. */
  predicate Repeats(row: Operation, status: Status) {
    row.status == status && status != OpStarted
  }

  predicate Definite(status: Status) {
    status == OpCompleted || status == OpFailed
  }

  ghost predicate FinishRight(
    db: Db, t: Token, o: OperationId, status: Status, result: Option<Value>, now: Time, r: Outcome, d: Db)
  {
    if status == OpStarted then r == Err(Invalid)
    else if !(Leased(db, t.job, now) && OwnLease(db, t)) then Refused(db, t, now, r)
    else if !(o in db.operations && db.operations[o].job == t.job) then r == Err(OperationNotFound)
    else
      var row := db.operations[o];
      && (r == Err(OperationTerminal) <==> Definite(row.status) && row.status != status)
      && (r.Ok? <==> !Definite(row.status) || row.status == status)
      && (r.Ok? && Repeats(row, status) ==>
        r.value.1 == OperationReply(row) && SameBut(db, d, db.jobs, db.leases, db.handoffs))
      && (r.Ok? && !Repeats(row, status) ==>
        && r.value.1 == OperationReply(row.(status := status, result := result))
        && d.jobs == db.jobs && d.leases == db.leases && d.handoffs == db.handoffs
        && d.operations == db.operations[o := row.(status := status, result := result)])
  }

  lemma FinishReduces(db: Db, t: Token, o: OperationId, status: Status, result: Option<Value>, now: Time, luck: Luck)
    requires Inv(db)
    ensures var r := Serve(db, FinishOperation(t, o, status, result), now, luck);
      if status == OpStarted then r == Err(Invalid)
      else if !(Leased(db, t.job, now) && OwnLease(db, t)) then Refused(db, t, now, r)
      else if !(o in db.operations && db.operations[o].job == t.job) then r == Err(OperationNotFound)
      else
        var row := db.operations[o];
        var x := ExpireChanges(db, t.job, now);
        if Repeats(row, status) then r == Ok((x, OperationReply(row)))
        else if Definite(row.status) then r == Err(OperationTerminal)
        else r == Ok((x + [Resolve(o, status, result)], OperationReply(row.(status := status, result := result))))
  {
    hide Inv, HasOpen, HasUnresolved, ExpireChanges, Legal, Write, Allowed, Commit;
    ExpireFacts(db, t.job, now);
    if Leased(db, t.job, now) {
      NothingDue(db, t.job, now);
    }
  }

  lemma FinishAnswers(
    db: Db, t: Token, o: OperationId, status: Status, result: Option<Value>, now: Time, luck: Luck, r: Outcome, d: Db)
    requires Inv(db) && r == Serve(db, FinishOperation(t, o, status, result), now, luck)
    requires d == Next(db, Step(FinishOperation(t, o, status, result), now, luck))
    ensures FinishRight(db, t, o, status, result, now, r, d)
  {
    hide Inv, HasOpen, HasUnresolved, ExpireChanges, Legal, Write, Commit, Serve, Allowed;
    FinishReduces(db, t, o, status, result, now, luck);
    if r.Ok? {
      NothingDue(db, t.job, now);
      var row := db.operations[o];
      if !Repeats(row, status) {
        ResolveAllowed(Expire(db, t.job, now), o, status, result);
        CommitsOne(db, FinishOperation(t, o, status, result), now, luck, ExpireChanges(db, t.job, now),
          Resolve(o, status, result), r.value.1);
        ResolveWrites(Expire(db, t.job, now), o, status, result);
      }
    }
  }

  lemma ResolveAllowed(e: Db, o: OperationId, status: Status, result: Option<Value>)
    requires Inv(e) && o in e.operations && status != OpStarted && status != e.operations[o].status
    requires !Definite(e.operations[o].status)
    ensures Allowed(e, Resolve(o, status, result))
  {
    hide Inv, HasUnresolved;
  }

  lemma ResolveWrites(e: Db, o: OperationId, status: Status, result: Option<Value>)
    requires Inv(e) && Allowed(e, Resolve(o, status, result))
    ensures var w := Write(e, Resolve(o, status, result));
      && o in e.operations && w.jobs == e.jobs && w.leases == e.leases && w.handoffs == e.handoffs
      && w.operations == e.operations[o := e.operations[o].(status := status, result := result)]
  {
    hide Inv, HasUnresolved;
  }

  // ---------------------------------------------------------------- reservations

  /** Every handoff that has run out, and every reservation, is swept; nothing else changes. */
  ghost predicate SweptAll(db: Db, d: Db, now: Time) {
    && d.jobs == db.jobs && d.leases == db.leases && d.operations == db.operations
    && d.handoffs.Keys == db.handoffs.Keys
    && forall h :: h in db.handoffs ==> SweptRow(db.handoffs[h], d.handoffs[h], db.handoffs[h].job, now)
  }

  /** The due handoffs of these jobs are expired, and no other row is touched. */
  ghost predicate SweptOver(db: Db, d: Db, order: seq<JobId>, now: Time) {
    && d.jobs == db.jobs && d.leases == db.leases && d.operations == db.operations
    && d.handoffs.Keys == db.handoffs.Keys
    && forall h :: h in db.handoffs ==> d.handoffs[h] == SweptOnce(db.handoffs[h], order, now)
  }

  function SweptOnce(row: Handoff, order: seq<JobId>, now: Time): Handoff {
    if row.job in order then AfterExpiry(row, row.job, now) else row
  }

  lemma OneJobSwept(db: Db, e: Db, j: JobId, now: Time)
    requires Inv(db) && e == Expire(db, j, now) && j !in db.leases
    ensures SweptOver(db, e, [j], now)
  {
    ExpireFacts(db, j, now);
    hide Inv, Expire;
  }

  lemma SweptFurther(db: Db, e: Db, d: Db, j: JobId, rest: seq<JobId>, now: Time)
    requires SweptOver(db, e, [j], now) && SweptOver(e, d, rest, now) && j !in rest
    ensures SweptOver(db, d, [j] + rest, now)
  {
    forall h | h in db.handoffs
      ensures d.handoffs[h] == SweptOnce(db.handoffs[h], [j] + rest, now)
    {
      var row := db.handoffs[h];
      assert row.job in [j] + rest <==> row.job == j || row.job in rest;
      assert e.handoffs[h].job == row.job;
    }
  }

  lemma {:induction false} SweepRows(db: Db, order: seq<JobId>, now: Time)
    requires Inv(db) && NoDuplicates(order) && forall j :: j in order ==> j !in db.leases
    ensures SweptOver(db, ExpireAll(db, order, now), order, now)
    decreases |order|
  {
    hide Inv, Expire, AfterExpiry, ExpireAll, SweptOver;
    if order == [] {
      NothingSwept(db, now);
      NothingSweptOver(db, now);
    } else {
      var e := Expire(db, order[0], now);
      ExpireAllUnfold(db, order, now);
      OneJobSwept(db, e, order[0], now);
      SameLeases(db, e, [order[0]], now);
      assert forall j :: j in order[1..] ==> j in order && j != order[0];
      SweepRows(e, order[1..], now);
      assert order == [order[0]] + order[1..];
      SweptFurther(db, e, ExpireAll(e, order[1..], now), order[0], order[1..], now);
    }
  }

  lemma NothingSweptOver(db: Db, now: Time)
    ensures SweptOver(db, db, [], now)
  {
  }

  lemma SameLeases(db: Db, e: Db, order: seq<JobId>, now: Time)
    requires SweptOver(db, e, order, now)
    ensures e.leases == db.leases
  {
  }

  lemma NothingSwept(db: Db, now: Time)
    requires Inv(db)
    ensures ExpireAll(db, [], now) == db
  {
  }

  lemma SweepExactly(db: Db, order: seq<JobId>, now: Time)
    requires Inv(db) && VisitsOpenJobs(db, order)
    ensures SweptAll(db, ExpireAll(db, order, now), now)
  {
    hide ExpireAll, SweptRow, SweptOnce;
    forall j | j in order
      ensures j !in db.leases
    {
      assert HasOpen(db, j);
    }
    SweepRows(db, order, now);
    forall h | h in db.handoffs
      ensures SweptRow(db.handoffs[h], SweptOnce(db.handoffs[h], order, now), db.handoffs[h].job, now)
    {
      RowSwept(db, order, now, h);
    }
  }

  lemma RowSwept(db: Db, order: seq<JobId>, now: Time, h: HandoffId)
    requires Inv(db) && VisitsOpenJobs(db, order) && h in db.handoffs
    ensures SweptRow(db.handoffs[h], SweptOnce(db.handoffs[h], order, now), db.handoffs[h].job, now)
  {
    assert RowInv(db.handoffs[h]);
    assert Open(db.handoffs[h]) ==> OpenFor(db, db.handoffs[h].job, h);
  }

  /** A reservation of this client that has not run out, nor its offer. */
  predicate Reserved(db: Db, client: Client, now: Time, h: HandoffId) {
    && h in db.handoffs && db.handoffs[h].state == Starting && db.handoffs[h].startingBy == Some(client)
    && db.handoffs[h].startingExpires.Some? && now < db.handoffs[h].startingExpires.value && now < db.handoffs[h].expires
  }

  /** An offer that stands and that no client has reserved, or no longer. */
  predicate Free(db: Db, now: Time, h: HandoffId) {
    && h in db.handoffs && now < db.handoffs[h].expires
    && (db.handoffs[h].state == Pending
      || (db.handoffs[h].state == Starting
          && db.handoffs[h].startingExpires.Some? && db.handoffs[h].startingExpires.value <= now))
  }

  lemma RowsAfterSweep(db: Db, d: Db, client: Client, now: Time)
    requires Inv(db) && SweptAll(db, d, now)
    ensures forall h :: StartedBy(d, client, now, h) <==> Reserved(db, client, now, h)
    ensures forall h :: AwaitsBrowser(d, now, h) <==> Free(db, now, h)
    ensures forall h :: Reserved(db, client, now, h) || Free(db, now, h) ==>
      h in db.handoffs && d.handoffs[h].created == db.handoffs[h].created
    ensures forall h :: Reserved(db, client, now, h) || Free(db, now, h) ==>
      d.handoffs[h].secret == Some(db.handoffs[h].nonceHash.of) && d.handoffs[h].expires == db.handoffs[h].expires
  {
    hide LeasesInv, OperationsInv, IndexInv, ExclusionInv;
    forall h | h in db.handoffs
      ensures StartedBy(d, client, now, h) <==> Reserved(db, client, now, h)
      ensures AwaitsBrowser(d, now, h) <==> Free(db, now, h)
      ensures d.handoffs[h].created == db.handoffs[h].created
      ensures Reserved(db, client, now, h) || Free(db, now, h) ==>
        d.handoffs[h].secret == Some(db.handoffs[h].nonceHash.of) && d.handoffs[h].expires == db.handoffs[h].expires
    {
      assert RowInv(db.handoffs[h]) && SweptRow(db.handoffs[h], d.handoffs[h], db.handoffs[h].job, now);
    }
  }

  /** The row of a fresh reservation: it ends with the offer at the latest. */
  function Booked(row: Handoff, client: Client, now: Time, ttl: Time): Handoff {
    row.(state := Starting, startingBy := Some(client), startingAt := Some(now),
         startingExpires := Some(if now + ttl <= row.expires then now + ttl else row.expires))
  }

  /** Every other row is swept, and this one is as given. */
  ghost predicate SweptExcept(db: Db, d: Db, now: Time, h: HandoffId, row: Handoff) {
    && d.jobs == db.jobs && d.leases == db.leases && d.operations == db.operations
    && d.handoffs.Keys == db.handoffs.Keys && h in db.handoffs && d.handoffs[h] == row
    && forall k :: k in db.handoffs && k != h ==> SweptRow(db.handoffs[k], d.handoffs[k], db.handoffs[k].job, now)
  }

  ghost predicate ReserveRight(db: Db, client: Client, ttl: Time, now: Time, pick: HandoffId, r: Outcome, d: Db) {
    if !(30.0 <= ttl <= 900.0) then r == Err(Invalid)
    else if exists h :: Reserved(db, client, now, h) then
      && Reserved(db, client, now, pick) && r.Ok? && SweptAll(db, d, now)
      && r.value.1 == ItemReply(pick, Some(db.handoffs[pick].nonceHash.of), false)
    else if exists h :: Free(db, now, h) then
      && Free(db, now, pick) && (forall h :: Free(db, now, h) ==> db.handoffs[pick].created <= db.handoffs[h].created)
      && r.Ok? && r.value.1 == ItemReply(pick, Some(db.handoffs[pick].nonceHash.of), true)
      && SweptExcept(db, d, now, pick, Booked(db.handoffs[pick], client, now, ttl))
    else r.Ok? && r.value.1 == NothingPending && SweptAll(db, d, now)
  }

  lemma ReserveReduces(db: Db, client: Client, ttl: Time, now: Time, luck: Luck)
    requires Inv(db) && Lucky(db, ReserveReentry(client, ttl), now, luck)
    ensures var r := Serve(db, ReserveReentry(client, ttl), now, luck);
      var x := ExpireAllChanges(db, luck.order, now);
      if !(30.0 <= ttl <= 900.0) then r == Err(Invalid)
      else if exists h :: Reserved(db, client, now, h) then
        && Reserved(db, client, now, luck.pick)
        && r == Ok((x, ItemReply(luck.pick, Some(db.handoffs[luck.pick].nonceHash.of), false)))
      else if exists h :: Free(db, now, h) then
        && Free(db, now, luck.pick)
        && (forall h :: Free(db, now, h) ==> db.handoffs[luck.pick].created <= db.handoffs[h].created)
        && r == Ok((x + [Reserve(luck.pick, client, now, Min(now + ttl, db.handoffs[luck.pick].expires))],
                    ItemReply(luck.pick, Some(db.handoffs[luck.pick].nonceHash.of), true)))
        && Allowed(Commit(db, x), Reserve(luck.pick, client, now, Min(now + ttl, db.handoffs[luck.pick].expires)))
      else r == Ok((x, NothingPending))
  {
    hide Inv, ExpireAllChanges, Commit, Legal, Write, SweptAll, VisitsOpenJobs, Reserved, Free, StartedBy, AwaitsBrowser;
    SweepExactly(db, luck.order, now);
    RowsAfterSweep(db, ExpireAll(db, luck.order, now), client, now);
    if Free(db, now, luck.pick) && !exists h :: Reserved(db, client, now, h) {
      ReserveAllowed(db, client, ttl, now, luck);
    }
  }

  lemma ReserveAllowed(db: Db, client: Client, ttl: Time, now: Time, luck: Luck)
    requires Inv(db) && Lucky(db, ReserveReentry(client, ttl), now, luck)
    requires Free(db, now, luck.pick) && forall h :: !Reserved(db, client, now, h)
    ensures Allowed(ExpireAll(db, luck.order, now),
      Reserve(luck.pick, client, now, Min(now + ttl, db.handoffs[luck.pick].expires)))
  {
    hide Inv, ExpireAll, SweptAll, VisitsOpenJobs, Reserved, Picked;
    var d := ExpireAll(db, luck.order, now);
    SweepExactly(db, luck.order, now);
    RowsAfterSweep(db, d, client, now);
    AllFresh(db, luck.order, now);
    NoOtherReservation(d, client, now, luck.pick);
    assert AwaitsBrowser(d, now, luck.pick);
  }

  /**
  A browser's request: its own live reservation again, or else an oldest free offer, reserved until now + ttl
  or the end of the offer, whichever is first, or nothing.
  */
  lemma ReserveAnswers(db: Db, client: Client, ttl: Time, now: Time, luck: Luck, r: Outcome, d: Db)
    requires Inv(db) && Lucky(db, ReserveReentry(client, ttl), now, luck)
    requires r == Serve(db, ReserveReentry(client, ttl), now, luck)
    requires d == Next(db, Step(ReserveReentry(client, ttl), now, luck))
    ensures ReserveRight(db, client, ttl, now, luck.pick, r, d)
  {
    hide Inv, ExpireAllChanges, Legal, Write, Serve, SweptAll, Allowed, Reserved, Free, Picked, VisitsOpenJobs;
    ReserveReduces(db, client, ttl, now, luck);
    SweepExactly(db, luck.order, now);
    if r.Ok? && r.value.1.ItemReply? && r.value.1.isNew {
      ReservedRows(db, client, ttl, now, luck, r, d);
    }
  }

  lemma ReservedRows(db: Db, client: Client, ttl: Time, now: Time, luck: Luck, r: Outcome, d: Db)
    requires Inv(db) && Lucky(db, ReserveReentry(client, ttl), now, luck)
    requires r == Serve(db, ReserveReentry(client, ttl), now, luck)
    requires d == Next(db, Step(ReserveReentry(client, ttl), now, luck))
    requires r.Ok? && r.value.1.ItemReply? && r.value.1.isNew
    ensures luck.pick in db.handoffs
    ensures SweptExcept(db, d, now, luck.pick, Booked(db.handoffs[luck.pick], client, now, ttl))
  {
    hide Inv, ExpireAllChanges, Legal, Write, Serve, Next, SweptAll, Allowed, Reserved, Picked, VisitsOpenJobs;
    var x := ExpireAllChanges(db, luck.order, now);
    ReserveReduces(db, client, ttl, now, luck);
    SweepExactly(db, luck.order, now);
    var c := Reserve(luck.pick, client, now, Min(now + ttl, db.handoffs[luck.pick].expires));
    CommitsOne(db, ReserveReentry(client, ttl), now, luck, x, c, r.value.1);
    BookedAfterSweep(db, ExpireAll(db, luck.order, now), luck.pick, client, now, ttl);
  }

  lemma BookedAfterSweep(db: Db, e: Db, h: HandoffId, client: Client, now: Time, ttl: Time)
    requires Inv(db) && Inv(e) && SweptAll(db, e, now) && Free(db, now, h)
    requires Allowed(e, Reserve(h, client, now, Min(now + ttl, db.handoffs[h].expires)))
    ensures SweptExcept(db, Write(e, Reserve(h, client, now, Min(now + ttl, db.handoffs[h].expires))), now, h,
      Booked(db.handoffs[h], client, now, ttl))
  {
    hide LeasesInv, OperationsInv, IndexInv, ExclusionInv;
    assert SweptRow(db.handoffs[h], e.handoffs[h], db.handoffs[h].job, now);
  }

  /** A reservation can be given back by the client that holds it, while it lasts. */
  lemma ReleaseReentryAnswers(db: Db, client: Client, h: HandoffId, now: Time, luck: Luck, r: Outcome, d: Db)
    requires Inv(db) && Lucky(db, ReleaseReentry(client, h), now, luck)
    requires r == Serve(db, ReleaseReentry(client, h), now, luck)
    requires d == Next(db, Step(ReleaseReentry(client, h), now, luck))
    ensures r == Err(NotStarting) <==> !exists other: Client :: Reserved(db, other, now, h)
    ensures r == Err(ReservedByOther) <==> exists other: Client :: other != client && Reserved(db, other, now, h)
    ensures r.Ok? <==> Reserved(db, client, now, h)
    ensures r.Ok? ==> r.value.1 == Done && SweptExcept(db, d, now, h,
      db.handoffs[h].(state := Pending, startingBy := None, startingAt := None, startingExpires := None))
  {
    hide Inv, ExpireAllChanges, Legal, Write, SweptAll, VisitsOpenJobs, Next;
    var e := ExpireAll(db, luck.order, now);
    SweepExactly(db, luck.order, now);
    StartingAfterSweep(db, e, h, now);
    if r.Ok? {
      CommitsOne(db, ReleaseReentry(client, h), now, luck, ExpireAllChanges(db, luck.order, now), Recycle(h, true), Done);
      GivenBack(db, e, h, client, now);
    }
  }

  lemma StartingAfterSweep(db: Db, e: Db, h: HandoffId, now: Time)
    requires Inv(db) && SweptAll(db, e, now)
    ensures h in e.handoffs && e.handoffs[h].state == Starting ==>
      e.handoffs[h].startingBy.Some? && Reserved(db, e.handoffs[h].startingBy.value, now, h)
    ensures forall client: Client :: Reserved(db, client, now, h) ==>
      h in e.handoffs && e.handoffs[h].state == Starting && e.handoffs[h].startingBy == Some(client)
  {
    hide LeasesInv, OperationsInv, IndexInv, ExclusionInv;
    if h in db.handoffs {
      assert RowInv(db.handoffs[h]) && SweptRow(db.handoffs[h], e.handoffs[h], db.handoffs[h].job, now);
    }
  }

  lemma GivenBack(db: Db, e: Db, h: HandoffId, client: Client, now: Time)
    requires Inv(db) && Inv(e) && SweptAll(db, e, now) && Reserved(db, client, now, h) && Allowed(e, Recycle(h, true))
    ensures SweptExcept(db, Write(e, Recycle(h, true)), now, h,
      db.handoffs[h].(state := Pending, startingBy := None, startingAt := None, startingExpires := None))
  {
    hide LeasesInv, OperationsInv, IndexInv, ExclusionInv;
    assert SweptRow(db.handoffs[h], e.handoffs[h], db.handoffs[h].job, now);
  }
}
