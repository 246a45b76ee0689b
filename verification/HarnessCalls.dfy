/**
Every harness call as one transaction: the guards it checks, in order, and the row changes it
commits; an error commits nothing, so it also takes back what `_expire` did.  The clock, fresh random
identifiers and the order in which the database returns rows are parameters.
*/
module HarnessCalls {
  import opened Prelude
  import opened HarnessTables

  datatype Error =
    | Invalid | JobNotFound | JobExists | JobTerminal | OpenHandoffExists | AlreadyLeased | NotLeased | StaleToken
    | UnresolvedOperation | VersionChanged | IllegalTransition | HandoffNotFound | NotClaimable | PayloadConflict
    | OperationNotFound | OperationTerminal | NotStarting | ReservedByOther | Integrity

  datatype Token = Token(job: JobId, lease: LeaseId, holder: Holder, generation: nat, expires: Time)

  datatype Reply =
    | JobReply(row: Job)
    | TokenReply(token: Token)
    | HandoffReply(handoff: HandoffId, nonce: Nonce, expires: Time)
    | StartReply(operation: OperationId, created: bool, record: Operation)
    | OperationReply(record: Operation)
    | ItemReply(handoff: HandoffId, secret: Option<Nonce>, isNew: bool)
    | NothingPending
    | Done

  datatype Call =
    | CreateJob(job: JobId, named: bool, lifecycle: Lifecycle, columns: map<Column, Value>)
    | GetJob(job: JobId)
    | AcquireLease(job: JobId, holder: Holder, ttl: Time)
    | RenewLease(token: Token, ttl: Time)
    | ReleaseLease(token: Token)
    | UpdateJob(token: Token, expected: nat, target: Option<Lifecycle>, columns: map<Column, Value>)
    | CreateHandoff(token: Token, ttl: Time)
    | ClaimHandoffCall(job: JobId, nonce: Nonce, holder: Holder, ttl: Time)
    | StartOperationCall(token: Token, key: Key, payload: Payload)
    | FinishOperation(token: Token, operation: OperationId, status: Status, result: Option<Value>)
    | ReserveReentry(client: Client, ttl: Time)
    | ReleaseReentry(client: Client, handoff: HandoffId)

  /** Fresh identifiers, and the order and choice the database makes among equals. */
  datatype Luck = Luck(
    lease: LeaseId, handoff: HandoffId, nonce: Nonce, operation: OperationId, order: seq<JobId>, pick: HandoffId)

  type Outcome = Result<(seq<Change>, Reply), Error>

  predicate LeaseTtl(ttl: Time) { 1.0 <= ttl <= 86400.0 }

  predicate ReentryTtl(ttl: Time) { 30.0 <= ttl <= 900.0 }

  // ---------------------------------------------------------------- transactions

  ghost predicate Legal(db: Db, cs: seq<Change>)
    requires Inv(db)
    decreases |cs|
  {
    cs == [] || (Allowed(db, cs[0]) && Inv(Write(db, cs[0])) && Legal(Write(db, cs[0]), cs[1..]))
  }

  ghost function Commit(db: Db, cs: seq<Change>): (t: Db)
    requires Inv(db) && Legal(db, cs)
    ensures Inv(t)
    decreases |cs|
  {
    if cs == [] then db else Commit(Write(db, cs[0]), cs[1..])
  }

  lemma LegalOne(db: Db, c: Change)
    requires Inv(db) && Allowed(db, c)
    ensures Legal(db, [c]) && Commit(db, [c]) == Write(db, c)
  {
    WriteKeepsInv(db, c);
    assert Legal(Write(db, c), []);
    assert [c][1..] == [];
  }

  lemma {:induction false} LegalAppend(db: Db, a: seq<Change>, b: seq<Change>)
    requires Inv(db) && Legal(db, a) && Legal(Commit(db, a), b)
    ensures Legal(db, a + b) && Commit(db, a + b) == Commit(Commit(db, a), b)
    decreases |a|
  {
    if a == [] {
      assert a + b == b;
    } else {
      assert (a + b)[1..] == a[1..] + b;
      LegalAppend(Write(db, a[0]), a[1..], b);
    }
  }

  lemma Then(db: Db, a: seq<Change>, c: Change)
    requires Inv(db) && Legal(db, a) && Allowed(Commit(db, a), c)
    ensures Legal(db, a + [c]) && Commit(db, a + [c]) == Write(Commit(db, a), c)
  {
    LegalOne(Commit(db, a), c);
    LegalAppend(db, a, [c]);
  }

  // ---------------------------------------------------------------- expiry

  /** The open handoff of a job; the index makes it unique. */
  ghost function OpenOf(db: Db, j: JobId): (h: Option<HandoffId>)
    requires Inv(db)
    ensures h.None? <==> !HasOpen(db, j)
    ensures h.Some? ==> OpenFor(db, j, h.value)
  {
    if HasOpen(db, j) then var h :| OpenFor(db, j, h); Some(h) else None
  }

  lemma OnlyOneOpen(db: Db, j: JobId, h: HandoffId)
    requires Inv(db) && OpenFor(db, j, h)
    ensures OpenOf(db, j) == Some(h)
  {
    assert OpenOf(db, j) == Some(h) || Compatible(db.handoffs[h], db.handoffs[OpenOf(db, j).value]);
  }

  predicate RenewsNothing(cs: seq<Change>) {
    forall i :: 0 <= i < |cs| ==> !cs[i].Renew?
  }

  /** At most one row of a job can be due: its lease, or its open handoff. */
  ghost function ExpireChanges(db: Db, j: JobId, now: Time): (cs: seq<Change>)
    requires Inv(db)
    ensures Legal(db, cs) && RenewsNothing(cs)
  {
    if j in db.leases then
      if db.leases[j].expires <= now then LegalOne(db, EndLease(j, true)); [EndLease(j, true)] else []
    else
      match OpenOf(db, j)
      case None => []
      case Some(h) =>
        var row := db.handoffs[h];
        if row.expires <= now then LegalOne(db, ExpireHandoff(h)); [ExpireHandoff(h)]
        else if row.state == Starting && row.startingExpires.value <= now then
          LegalOne(db, Recycle(h, false)); [Recycle(h, false)]
        else []
  }

  ghost function Expire(db: Db, j: JobId, now: Time): (d: Db)
    requires Inv(db)
    ensures Inv(d)
  {
    Commit(db, ExpireChanges(db, j, now))
  }

  ghost function ExpireAllChanges(db: Db, order: seq<JobId>, now: Time): (cs: seq<Change>)
    requires Inv(db)
    ensures Legal(db, cs) && RenewsNothing(cs)
    decreases |order|
  {
    if order == [] then []
    else
      var a := ExpireChanges(db, order[0], now);
      var b := ExpireAllChanges(Commit(db, a), order[1..], now);
      LegalAppend(db, a, b);
      a + b
  }

  ghost function ExpireAll(db: Db, order: seq<JobId>, now: Time): (d: Db)
    requires Inv(db)
    ensures Inv(d)
  {
    Commit(db, ExpireAllChanges(db, order, now))
  }

  function AfterExpiry(row: Handoff, j: JobId, now: Time): Handoff {
    if row.job != j || !Open(row) then row
    else if row.expires <= now then NoStart(row).(state := HandoffState.Expired, secret := None)
    else if row.startingExpires.Some? && row.startingExpires.value <= now then NoStart(row).(state := Pending)
    else row
  }

  /** The queries of `_expire`, row by row: every due row of the job and nothing else. */
  lemma ExpireFacts(db: Db, j: JobId, now: Time)
    requires Inv(db)
    ensures var d := Expire(db, j, now);
      && d.jobs == db.jobs && d.operations == db.operations
      && d.leases == (if j in db.leases && db.leases[j].expires <= now then db.leases - {j} else db.leases)
      && d.handoffs == (map h | h in db.handoffs :: AfterExpiry(db.handoffs[h], j, now))
  {
    hide HasUnresolved, OperationsInv, IndexInv;
    var cs := ExpireChanges(db, j, now);
    var d := Expire(db, j, now);
    if cs != [] {
      LegalOne(db, cs[0]);
      assert cs == [cs[0]] && d == Write(db, cs[0]);
    }
    if j in db.leases {
      assert d.handoffs == db.handoffs;
      assert forall h :: h in db.handoffs ==> AfterExpiry(db.handoffs[h], j, now) == db.handoffs[h];
    } else {
      ExpireHandoffFacts(db, j, now);
    }
  }

  lemma ExpireHandoffFacts(db: Db, j: JobId, now: Time)
    requires Inv(db) && j !in db.leases
    ensures Expire(db, j, now).handoffs == (map h | h in db.handoffs :: AfterExpiry(db.handoffs[h], j, now))
  {
    hide HasUnresolved, OperationsInv, IndexInv, LeasesInv, ExclusionInv, Allowed;
    var cs := ExpireChanges(db, j, now);
    var d := Expire(db, j, now);
    var open := OpenOf(db, j);
    forall h: HandoffId | OpenFor(db, j, h)
      ensures open == Some(h)
    {
      OnlyOneOpen(db, j, h);
    }
    assert forall h :: h in db.handoffs && open != Some(h) ==> AfterExpiry(db.handoffs[h], j, now) == db.handoffs[h];
    if cs == [] {
      assert d == db;
    } else {
      LegalOne(db, cs[0]);
      assert cs == [cs[0]] && d == Write(db, cs[0]);
      ExpiredRow(db, j, now, open.value);
    }
  }

  lemma ExpiredRow(db: Db, j: JobId, now: Time, h: HandoffId)
    requires Inv(db) && j !in db.leases && OpenOf(db, j) == Some(h) && ExpireChanges(db, j, now) != []
    ensures Write(db, ExpireChanges(db, j, now)[0]).handoffs == db.handoffs[h := AfterExpiry(db.handoffs[h], j, now)]
  {
    assert RowInv(db.handoffs[h]);
  }

  /** What a call that passes its guards commits: the expiry, then one more change. */
  ghost function AndThen(db: Db, x: seq<Change>, c: Change, reply: Reply): (r: Outcome)
    requires Inv(db) && Legal(db, x) && Allowed(Commit(db, x), c)
    ensures r == Ok((x + [c], reply)) && Legal(db, x + [c])
    ensures RenewsNothing(x) && !c.Renew? ==> RenewsNothing(x + [c])
  {
    Then(db, x, c);
    Ok((x + [c], reply))
  }

  // ---------------------------------------------------------------- calls

  predicate HasKey(db: Db, j: JobId, key: Key, o: OperationId) {
    o in db.operations && db.operations[o].job == j && db.operations[o].key == key
  }

  ghost function KeyedOperation(db: Db, j: JobId, key: Key): (o: Option<OperationId>)
    ensures o.Some? ==> HasKey(db, j, key, o.value)
    ensures o.None? ==> forall p :: !HasKey(db, j, key, p)
  {
    if exists p :: HasKey(db, j, key, p) then var p :| HasKey(db, j, key, p); Some(p) else None
  }

  predicate HasNonce(db: Db, j: JobId, nonce: Nonce, h: HandoffId) {
    h in db.handoffs && db.handoffs[h].job == j && db.handoffs[h].nonceHash == NonceHash(nonce)
  }

  ghost function HandoffByNonce(db: Db, j: JobId, nonce: Nonce): (h: Option<HandoffId>)
    ensures h.Some? ==> HasNonce(db, j, nonce, h.value)
    ensures h.None? ==> forall p :: !HasNonce(db, j, nonce, p)
  {
    if exists p :: HasNonce(db, j, nonce, p) then var p :| HasNonce(db, j, nonce, p); Some(p) else None
  }

  /** The row `_require_lease` returns, after expiry. */
  function LeaseError(d: Db, t: Token): Option<Error> {
    if t.job !in d.leases then Some(NotLeased)
    else if d.leases[t.job].id != t.lease || d.leases[t.job].generation != t.generation then Some(StaleToken)
    else None
  }

  predicate LeaseIdUsed(db: Db, lease: LeaseId) {
    exists j :: j in db.leases && db.leases[j].id == lease
  }

  predicate HandoffIdUsed(db: Db, h: HandoffId, nonce: Nonce) {
    h in db.handoffs || exists k :: k in db.handoffs && db.handoffs[k].nonceHash == NonceHash(nonce)
  }

  ghost function Create(db: Db, call: Call): (r: Outcome)
    requires Inv(db) && call.CreateJob?
    ensures r.Ok? ==> Legal(db, r.value.0) && RenewsNothing(r.value.0)
  {
    if !call.named then Err(Invalid)
    else if call.job in db.jobs then Err(JobExists)
    else
      var c := NewJob(call.job, call.lifecycle, call.columns);
      LegalOne(db, c);
      Ok(([c], JobReply(Job(1, 0, call.lifecycle, call.columns))))
  }

  ghost function Get(db: Db, j: JobId, now: Time): (r: Outcome)
    requires Inv(db)
    ensures r.Ok? ==> Legal(db, r.value.0) && RenewsNothing(r.value.0)
  {
    if j !in db.jobs then Err(JobNotFound) else Ok((ExpireChanges(db, j, now), JobReply(db.jobs[j])))
  }

  ghost function Acquire(db: Db, j: JobId, holder: Holder, ttl: Time, now: Time, newId: LeaseId): (r: Outcome)
    requires Inv(db)
    ensures r.Ok? ==> Legal(db, r.value.0)
  {
    if !LeaseTtl(ttl) then Err(Invalid)
    else if j !in db.jobs then Err(JobNotFound)
    else
      var x := ExpireChanges(db, j, now);
      var d := Expire(db, j, now);
      ExpireFacts(db, j, now);
      if Terminal(db.jobs[j].lifecycle) then Err(JobTerminal)
      else if HasOpen(d, j) then Err(OpenHandoffExists)
      else if j in d.leases then
        if d.leases[j].holder != holder then Err(AlreadyLeased)
        else
          AndThen(db, x, Renew(j, now + ttl), TokenReply(Token(j, d.leases[j].id, holder, d.leases[j].generation, now + ttl)))
      else if LeaseIdUsed(d, newId) then Err(Integrity)
      else
        var c := Grant(j, newId, holder, now + ttl);
        AndThen(db, x, c, TokenReply(Token(j, newId, holder, d.jobs[j].generation + 1, now + ttl)))
  }

  ghost function RenewCall(db: Db, t: Token, ttl: Time, now: Time): (r: Outcome)
    requires Inv(db)
    ensures r.Ok? ==> Legal(db, r.value.0)
  {
    if !LeaseTtl(ttl) then Err(Invalid)
    else
      var x := ExpireChanges(db, t.job, now);
      var d := Expire(db, t.job, now);
      if LeaseError(d, t).Some? then Err(LeaseError(d, t).value)
      else
        AndThen(db, x, Renew(t.job, now + ttl), TokenReply(Token(t.job, t.lease, d.leases[t.job].holder, t.generation, now + ttl)))
  }

  ghost function Release(db: Db, t: Token, now: Time): (r: Outcome)
    requires Inv(db)
    ensures r.Ok? ==> Legal(db, r.value.0) && RenewsNothing(r.value.0)
  {
    if t.job !in db.jobs then Err(JobNotFound)
    else
      var x := ExpireChanges(db, t.job, now);
      var d := Expire(db, t.job, now);
      if LeaseError(d, t).Some? then Err(LeaseError(d, t).value)
      else
        AndThen(db, x, EndLease(t.job, false), Done)
  }

  ghost function UpdateCall(
    db: Db, t: Token, expected: nat, target: Option<Lifecycle>, columns: map<Column, Value>, now: Time): (r: Outcome)
    requires Inv(db)
    ensures r.Ok? ==> Legal(db, r.value.0) && RenewsNothing(r.value.0)
  {
    if target.None? && columns == map[] then Err(Invalid)
    else
      var x := ExpireChanges(db, t.job, now);
      var d := Expire(db, t.job, now);
      if LeaseError(d, t).Some? then Err(LeaseError(d, t).value)
      else
        var job := d.jobs[t.job];
        var next := if target.Some? then target.value else job.lifecycle;
        if Terminal(job.lifecycle) then Err(JobTerminal)
        else if HasUnresolved(d, t.job) then Err(UnresolvedOperation)
        else if job.version != expected then Err(VersionChanged)
        else if !Transition(job.lifecycle, next) then Err(IllegalTransition)
        else
          var c := Update(t.job, next, columns);
          AndThen(db, x, c, JobReply(Job(job.version + 1, job.generation, next, job.columns + columns)))
  }

  ghost function HandOff(db: Db, t: Token, ttl: Time, now: Time, newId: HandoffId, nonce: Nonce): (r: Outcome)
    requires Inv(db)
    ensures r.Ok? ==> Legal(db, r.value.0) && RenewsNothing(r.value.0)
  {
    if !LeaseTtl(ttl) then Err(Invalid)
    else
      var x := ExpireChanges(db, t.job, now);
      var d := Expire(db, t.job, now);
      if LeaseError(d, t).Some? then Err(LeaseError(d, t).value)
      else if Terminal(d.jobs[t.job].lifecycle) then Err(JobTerminal)
      else if HasOpen(d, t.job) then Err(OpenHandoffExists)
      else if HandoffIdUsed(d, newId, nonce) then Err(Integrity)
      else
        var c := OpenHandoff(t.job, newId, nonce, now, now + ttl);
        AndThen(db, x, c, HandoffReply(newId, nonce, now + ttl))
  }

  ghost function Claim(
    db: Db, j: JobId, nonce: Nonce, holder: Holder, ttl: Time, now: Time, newId: LeaseId): (r: Outcome)
    requires Inv(db)
    ensures r.Ok? ==> Legal(db, r.value.0) && RenewsNothing(r.value.0)
  {
    if !LeaseTtl(ttl) then Err(Invalid)
    else if j !in db.jobs then Err(JobNotFound)
    else
      var x := ExpireChanges(db, j, now);
      var d := Expire(db, j, now);
      var h := HandoffByNonce(d, j, nonce);
      if Terminal(db.jobs[j].lifecycle) then Err(JobTerminal)
      else if h.None? then Err(HandoffNotFound)
      else if !Open(d.handoffs[h.value]) || d.handoffs[h.value].expires <= now then Err(NotClaimable)
      else if j in d.leases then Err(AlreadyLeased)
      else if LeaseIdUsed(d, newId) then Err(Integrity)
      else
        var c := ClaimHandoff(h.value, newId, holder, now + ttl);
        AndThen(db, x, c, TokenReply(Token(j, newId, holder, d.jobs[j].generation + 1, now + ttl)))
  }

  ghost function StartOp(db: Db, t: Token, key: Key, payload: Payload, now: Time, newId: OperationId): (r: Outcome)
    requires Inv(db)
    ensures r.Ok? ==> Legal(db, r.value.0) && RenewsNothing(r.value.0)
  {
    var x := ExpireChanges(db, t.job, now);
    var d := Expire(db, t.job, now);
    if LeaseError(d, t).Some? then Err(LeaseError(d, t).value)
    else if Terminal(d.jobs[t.job].lifecycle) then Err(JobTerminal)
    else
      var o := KeyedOperation(d, t.job, key);
      if o.Some? then
        if d.operations[o.value].payload != payload then Err(PayloadConflict)
        else Ok((x, StartReply(o.value, false, d.operations[o.value])))
      else if HasUnresolved(d, t.job) then Err(UnresolvedOperation)
      else if newId in d.operations then Err(Integrity)
      else
        var c := StartOperation(t.job, newId, key, payload);
        assert forall k :: k in d.operations ==> !HasKey(d, t.job, key, k);
        AndThen(db, x, c, StartReply(newId, true, Operation(t.job, key, payload, OpStarted, None)))
  }

  ghost function FinishOp(
    db: Db, t: Token, o: OperationId, status: Status, result: Option<Value>, now: Time): (r: Outcome)
    requires Inv(db)
    ensures r.Ok? ==> Legal(db, r.value.0) && RenewsNothing(r.value.0)
  {
    if status == OpStarted then Err(Invalid)
    else
      var x := ExpireChanges(db, t.job, now);
      var d := Expire(db, t.job, now);
      if LeaseError(d, t).Some? then Err(LeaseError(d, t).value)
      else if o !in d.operations || d.operations[o].job != t.job then Err(OperationNotFound)
      else
        var row := d.operations[o];
        if row.status == OpCompleted || row.status == OpFailed then
          if row.status == status then Ok((x, OperationReply(row))) else Err(OperationTerminal)
        else if row.status == OpIndeterminate && status == OpIndeterminate then Ok((x, OperationReply(row)))
        else
          var c := Resolve(o, status, result);
          AndThen(db, x, c, OperationReply(row.(status := status, result := result)))
  }

  predicate StartedBy(d: Db, client: Client, now: Time, h: HandoffId) {
    && h in d.handoffs && d.handoffs[h].state == Starting && d.handoffs[h].startingBy == Some(client)
    && d.handoffs[h].startingExpires.Some? && now < d.handoffs[h].startingExpires.value
    && now < d.handoffs[h].expires && d.handoffs[h].secret.Some?
  }

  predicate AwaitsBrowser(d: Db, now: Time, h: HandoffId) {
    h in d.handoffs && d.handoffs[h].state == Pending && now < d.handoffs[h].expires && d.handoffs[h].secret.Some?
  }

  /** The rows `_expire_open_handoffs` visits: each job with an open handoff, once, in any order. */
  ghost predicate VisitsOpenJobs(db: Db, order: seq<JobId>) {
    NoDuplicates(order) && forall j :: j in order <==> HasOpen(db, j)
  }

  /** The row picked by ORDER BY ... LIMIT 1: this client's own reservation, else an oldest pending row. */
  ghost predicate Picked(d: Db, client: Client, now: Time, pick: HandoffId) {
    if exists h :: StartedBy(d, client, now, h) then StartedBy(d, client, now, pick)
    else if exists h :: AwaitsBrowser(d, now, h) then
      AwaitsBrowser(d, now, pick) && forall h :: AwaitsBrowser(d, now, h) ==> d.handoffs[pick].created <= d.handoffs[h].created
    else true
  }

  function Min(a: Time, b: Time): Time { if a <= b then a else b }

  lemma NoOtherReservation(d: Db, client: Client, now: Time, pick: HandoffId)
    requires Inv(d) && Picked(d, client, now, pick) && !StartedBy(d, client, now, pick)
    requires forall h :: h in d.handoffs ==> Fresh(d.handoffs[h], now)
    ensures forall k :: k in d.handoffs && d.handoffs[k].state == Starting ==> d.handoffs[k].startingBy != Some(client)
  {
    forall k | k in d.handoffs && d.handoffs[k].state == Starting
      ensures d.handoffs[k].startingBy != Some(client)
    {
      assert RowInv(d.handoffs[k]) && Fresh(d.handoffs[k], now);
      assert !StartedBy(d, client, now, k);
    }
  }

  ghost function ReserveCall(
    db: Db, client: Client, ttl: Time, now: Time, order: seq<JobId>, pick: HandoffId): (r: Outcome)
    requires Inv(db) && VisitsOpenJobs(db, order)
    requires Picked(ExpireAll(db, order, now), client, now, pick)
    ensures r.Ok? ==> Legal(db, r.value.0) && RenewsNothing(r.value.0)
  {
    if !ReentryTtl(ttl) then Err(Invalid)
    else
      var x := ExpireAllChanges(db, order, now);
      var d := ExpireAll(db, order, now);
      if StartedBy(d, client, now, pick) then Ok((x, ItemReply(pick, d.handoffs[pick].secret, false)))
      else if !AwaitsBrowser(d, now, pick) then Ok((x, NothingPending))
      else
        var c := Reserve(pick, client, now, Min(now + ttl, d.handoffs[pick].expires));
        AllFresh(db, order, now);
        NoOtherReservation(d, client, now, pick);
        AndThen(db, x, c, ItemReply(pick, d.handoffs[pick].secret, true))
  }

  ghost function ReleaseReentryCall(db: Db, client: Client, h: HandoffId, now: Time, order: seq<JobId>): (r: Outcome)
    requires Inv(db) && VisitsOpenJobs(db, order)
    ensures r.Ok? ==> Legal(db, r.value.0) && RenewsNothing(r.value.0)
  {
    var x := ExpireAllChanges(db, order, now);
    var d := ExpireAll(db, order, now);
    if h !in d.handoffs || d.handoffs[h].state != Starting then Err(NotStarting)
    else if d.handoffs[h].startingBy != Some(client) then Err(ReservedByOther)
    else
      AndThen(db, x, Recycle(h, true), Done)
  }

  /** A row that no expiry at this time would touch. */
  predicate Fresh(row: Handoff, now: Time) {
    Open(row) ==> now < row.expires && (row.startingExpires.Some? ==> now < row.startingExpires.value)
  }

  /** What expiring the jobs in order does to one row. */
  predicate Passed(row: Handoff, after: Handoff, order: seq<JobId>, now: Time) {
    && after.job == row.job
    && (Fresh(row, now) || row.job !in order ==> after == row)
    && (row.job in order ==> Fresh(after, now))
  }

  lemma ExpireAllUnfold(db: Db, order: seq<JobId>, now: Time)
    requires Inv(db) && order != []
    ensures ExpireAll(db, order, now) == ExpireAll(Expire(db, order[0], now), order[1..], now)
  {
    var a := ExpireChanges(db, order[0], now);
    LegalAppend(db, a, ExpireAllChanges(Commit(db, a), order[1..], now));
  }

  /** From one database to a later one of the same jobs, every handoff row has passed the expiry of these jobs. */
  ghost predicate RowsPassed(db: Db, d: Db, order: seq<JobId>, now: Time) {
    && d.jobs == db.jobs && d.operations == db.operations && d.handoffs.Keys == db.handoffs.Keys
    && forall h :: h in db.handoffs ==> Passed(db.handoffs[h], d.handoffs[h], order, now)
  }

  lemma RowsPassedFirst(db: Db, e: Db, d: Db, order: seq<JobId>, now: Time)
    requires order != [] && RowsPassed(e, d, order[1..], now)
    requires e.jobs == db.jobs && e.operations == db.operations
    requires e.handoffs == map h | h in db.handoffs :: AfterExpiry(db.handoffs[h], order[0], now)
    ensures RowsPassed(db, d, order, now)
  {
    forall h | h in db.handoffs
      ensures Passed(db.handoffs[h], d.handoffs[h], order, now)
    {
      assert e.handoffs[h] == AfterExpiry(db.handoffs[h], order[0], now);
      PassedStep(db.handoffs[h], d.handoffs[h], order, now);
    }
  }

  lemma {:induction false} ExpireAllRows(db: Db, order: seq<JobId>, now: Time)
    requires Inv(db)
    ensures RowsPassed(db, ExpireAll(db, order, now), order, now)
    decreases |order|
  {
    if order != [] {
      var e := Expire(db, order[0], now);
      ExpireFacts(db, order[0], now);
      ExpireAllUnfold(db, order, now);
      ExpireAllRows(e, order[1..], now);
      hide *;
      RowsPassedFirst(db, e, ExpireAll(e, order[1..], now), order, now);
    }
  }

  lemma PassedStep(row: Handoff, after: Handoff, order: seq<JobId>, now: Time)
    requires order != [] && Passed(AfterExpiry(row, order[0], now), after, order[1..], now)
    ensures Passed(row, after, order, now)
  {
  }

  lemma AllFresh(db: Db, order: seq<JobId>, now: Time)
    requires Inv(db) && VisitsOpenJobs(db, order)
    ensures forall h :: h in ExpireAll(db, order, now).handoffs ==> Fresh(ExpireAll(db, order, now).handoffs[h], now)
  {
    ExpireAllRows(db, order, now);
    forall h | h in db.handoffs && db.handoffs[h].job !in order
      ensures Fresh(db.handoffs[h], now)
    {
      assert !OpenFor(db, db.handoffs[h].job, h);
    }
  }
}
