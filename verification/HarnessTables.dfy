/**
The tables of the conversation harness, the row changes its transactions are made of, and the
invariant every allowed change keeps.  Identifiers are compared only for equality, so numbers stand
for them; a nonce hash is a constructor, hence injective.  Each change writes exactly one event.
*/
module HarnessTables {
  import opened Prelude

  type JobId = nat
  type Holder = nat
  type Client = nat
  type LeaseId = nat
  type HandoffId = nat
  type Nonce = nat
  type OperationId = nat
  type Key = nat
  type Column = nat
  type Value = nat
  type Time = real

  datatype Lifecycle = Active | Waiting | Blocked | Completed | Failed | Cancelled

  datatype Job = Job(version: nat, generation: nat, lifecycle: Lifecycle, columns: map<Column, Value>)

  datatype Lease = Lease(id: LeaseId, holder: Holder, generation: nat, expires: Time)

  datatype NonceHash = NonceHash(of: Nonce)

  datatype HandoffState = Pending | Starting | Claimed | Expired

  datatype Handoff = Handoff(
    job: JobId, nonceHash: NonceHash, secret: Option<Nonce>, state: HandoffState, created: Time, expires: Time,
    claimedBy: Option<Holder>, startingBy: Option<Client>, startingAt: Option<Time>, startingExpires: Option<Time>)

  datatype Status = OpStarted | OpCompleted | OpFailed | OpIndeterminate

  /** What an idempotency key is bound to. */
  datatype Payload = Payload(kind: nat, target: Option<nat>, effect: Option<nat>)

  datatype Operation = Operation(job: JobId, key: Key, payload: Payload, status: Status, result: Option<Value>)

  datatype What =
    | JobCreated
    | LeaseExpired(lease: LeaseId, generation: nat)
    | LeaseReleased(generation: nat)
    | LeaseRenewed(generation: nat)
    | LeaseAcquired(lease: LeaseId, holder: Holder, generation: nat)
    | JobUpdated(fromVersion: nat)
    | HandoffCreated(handoff: HandoffId, generation: nat)
    | HandoffClaimed(handoff: HandoffId, holder: Holder, generation: nat)
    | HandoffExpired(handoff: HandoffId)
    | HandoffStarting(handoff: HandoffId, client: Client)
    | HandoffStartExpired(handoff: HandoffId)
    | HandoffStartReleased(handoff: HandoffId, client: Client)
    | OperationStarted(operation: OperationId, key: Key)
    | OperationFinished(operation: OperationId, before: Status, after: Status)
    | OperationReconciled(operation: OperationId, before: Status, after: Status)

  datatype Event = Event(job: JobId, what: What)

  datatype Db = Db(
    jobs: map<JobId, Job>,
    leases: map<JobId, Lease>,
    handoffs: map<HandoffId, Handoff>,
    operations: map<OperationId, Operation>,
    events: seq<Event>)

  const EMPTY := Db(map[], map[], map[], map[], [])

  predicate Terminal(l: Lifecycle) {
    l == Completed || l == Failed || l == Cancelled
  }

  predicate Transition(current: Lifecycle, target: Lifecycle) {
    || current == target
    || (current == Active && target in {Waiting, Blocked, Completed, Failed, Cancelled})
    || (current == Waiting && target in {Active, Blocked, Completed, Failed, Cancelled})
    || (current == Blocked && target in {Active, Failed, Cancelled})
  }

  predicate Open(h: Handoff) {
    h.state == Pending || h.state == Starting
  }

  predicate Unresolved(o: Operation) {
    o.status == OpStarted || o.status == OpIndeterminate
  }

  predicate OpenFor(db: Db, j: JobId, h: HandoffId) {
    h in db.handoffs && db.handoffs[h].job == j && Open(db.handoffs[h])
  }

  ghost predicate HasOpen(db: Db, j: JobId) {
    exists h :: OpenFor(db, j, h)
  }

  ghost predicate HasUnresolved(db: Db, j: JobId) {
    exists o :: o in db.operations && db.operations[o].job == j && Unresolved(db.operations[o])
  }

  // ---------------------------------------------------------------- row changes

  datatype Change =
    | NewJob(job: JobId, lifecycle: Lifecycle, columns: map<Column, Value>)
    | EndLease(job: JobId, expired: bool)
    | Renew(job: JobId, expires: Time)
    | Grant(job: JobId, lease: LeaseId, holder: Holder, expires: Time)
    | Update(job: JobId, lifecycle: Lifecycle, columns: map<Column, Value>)
    | OpenHandoff(job: JobId, handoff: HandoffId, nonce: Nonce, created: Time, expires: Time)
    | ClaimHandoff(handoff: HandoffId, lease: LeaseId, holder: Holder, expires: Time)
    | ExpireHandoff(handoff: HandoffId)
    | Reserve(handoff: HandoffId, client: Client, at: Time, until: Time)
    | Recycle(handoff: HandoffId, released: bool)
    | StartOperation(job: JobId, operation: OperationId, key: Key, payload: Payload)
    | Resolve(operation: OperationId, status: Status, result: Option<Value>)

  /** When the service issues the change: the guards of the code, never a table constraint. */
  ghost predicate Allowed(db: Db, c: Change) {
    match c
    case NewJob(j, _, _) => j !in db.jobs
    case EndLease(j, _) => j in db.leases
    case Renew(j, _) => j in db.leases
    case Grant(j, lease, _, _) =>
      && j in db.jobs && j !in db.leases && !HasOpen(db, j) && !Terminal(db.jobs[j].lifecycle)
      && (forall k :: k in db.leases ==> db.leases[k].id != lease)
    case Update(j, lifecycle, _) =>
      j in db.jobs && j in db.leases && !Terminal(db.jobs[j].lifecycle) && !HasUnresolved(db, j)
      && Transition(db.jobs[j].lifecycle, lifecycle)
    case OpenHandoff(j, h, nonce, _, _) =>
      && j in db.jobs && j in db.leases && !Terminal(db.jobs[j].lifecycle) && h !in db.handoffs
      && (forall k :: k in db.handoffs ==> db.handoffs[k].nonceHash != NonceHash(nonce))
    case ClaimHandoff(h, lease, _, _) =>
      && h in db.handoffs && Open(db.handoffs[h])
      && (forall k :: k in db.leases ==> db.leases[k].id != lease)
    case ExpireHandoff(h) => h in db.handoffs && Open(db.handoffs[h])
    case Reserve(h, client, _, until) =>
      && h in db.handoffs && db.handoffs[h].state == Pending && until <= db.handoffs[h].expires
      && (forall k :: k in db.handoffs && db.handoffs[k].state == Starting ==> db.handoffs[k].startingBy != Some(client))
    case Recycle(h, _) => h in db.handoffs && db.handoffs[h].state == Starting
    case StartOperation(j, o, key, _) =>
      && j in db.jobs && !Terminal(db.jobs[j].lifecycle) && o !in db.operations && !HasUnresolved(db, j)
      && (forall k :: k in db.operations ==> !(db.operations[k].job == j && db.operations[k].key == key))
    case Resolve(o, status, _) =>
      o in db.operations && Unresolved(db.operations[o]) && status != OpStarted && status != db.operations[o].status
  }

  function NoStart(h: Handoff): Handoff {
    h.(startingBy := None, startingAt := None, startingExpires := None)
  }

  /** The one event a change writes. */
  ghost function EventOf(db: Db, c: Change): Event
    requires Allowed(db, c) && Inv(db)
  {
    match c
    case NewJob(j, _, _) => Event(j, JobCreated)
    case EndLease(j, expired) =>
      var l := db.leases[j];
      Event(j, if expired then LeaseExpired(l.id, l.generation) else LeaseReleased(l.generation))
    case Renew(j, _) => Event(j, LeaseRenewed(db.leases[j].generation))
    case Grant(j, lease, holder, _) => Event(j, LeaseAcquired(lease, holder, db.jobs[j].generation + 1))
    case Update(j, _, _) => Event(j, JobUpdated(db.jobs[j].version))
    case OpenHandoff(j, h, _, _, _) => Event(j, HandoffCreated(h, db.leases[j].generation))
    case ClaimHandoff(h, _, holder, _) =>
      var j := db.handoffs[h].job;
      Event(j, HandoffClaimed(h, holder, db.jobs[j].generation + 1))
    case ExpireHandoff(h) => Event(db.handoffs[h].job, HandoffExpired(h))
    case Reserve(h, client, _, _) => Event(db.handoffs[h].job, HandoffStarting(h, client))
    case Recycle(h, released) =>
      var row := db.handoffs[h];
      Event(row.job, if released then HandoffStartReleased(h, row.startingBy.value) else HandoffStartExpired(h))
    case StartOperation(j, o, key, _) => Event(j, OperationStarted(o, key))
    case Resolve(o, status, _) =>
      var row := db.operations[o];
      Event(row.job,
        if row.status == OpIndeterminate then OperationReconciled(o, row.status, status)
        else OperationFinished(o, row.status, status))
  }

  ghost function JobOf(db: Db, c: Change): JobId
    requires Allowed(db, c) && Inv(db)
  {
    EventOf(db, c).job
  }

  /** The rows a change inserts, updates or deletes. */
  ghost function Rows(db: Db, c: Change): Db
    requires Allowed(db, c) && Inv(db)
  {
    match c
    case NewJob(j, lifecycle, columns) => db.(jobs := db.jobs[j := Job(1, 0, lifecycle, columns)])
    case EndLease(j, _) => db.(leases := db.leases - {j})
    case Renew(j, expires) => db.(leases := db.leases[j := db.leases[j].(expires := expires)])
    case Grant(j, lease, holder, expires) =>
      var job := db.jobs[j];
      db.(jobs := db.jobs[j := job.(generation := job.generation + 1, version := job.version + 1)],
          leases := db.leases[j := Lease(lease, holder, job.generation + 1, expires)])
    case Update(j, lifecycle, columns) =>
      var job := db.jobs[j];
      db.(jobs := db.jobs[j := Job(job.version + 1, job.generation, lifecycle, job.columns + columns)])
    case OpenHandoff(j, h, nonce, created, expires) =>
      var job := db.jobs[j];
      db.(jobs := db.jobs[j := job.(version := job.version + 1)],
          leases := db.leases - {j},
          handoffs := db.handoffs[h :=
            Handoff(j, NonceHash(nonce), Some(nonce), Pending, created, expires, None, None, None, None)])
    case ClaimHandoff(h, lease, holder, expires) =>
      var row := db.handoffs[h];
      var job := db.jobs[row.job];
      db.(jobs := db.jobs[row.job := job.(generation := job.generation + 1, version := job.version + 1)],
          leases := db.leases[row.job := Lease(lease, holder, job.generation + 1, expires)],
          handoffs := db.handoffs[h := NoStart(row).(state := Claimed, secret := None, claimedBy := Some(holder))])
    case ExpireHandoff(h) =>
      db.(handoffs := db.handoffs[h := NoStart(db.handoffs[h]).(state := Expired, secret := None)])
    case Reserve(h, client, at, until) =>
      db.(handoffs := db.handoffs[h := db.handoffs[h].(
            state := Starting, startingBy := Some(client), startingAt := Some(at), startingExpires := Some(until))])
    case Recycle(h, _) => db.(handoffs := db.handoffs[h := NoStart(db.handoffs[h]).(state := Pending)])
    case StartOperation(j, o, key, payload) =>
      db.(operations := db.operations[o := Operation(j, key, payload, OpStarted, None)])
    case Resolve(o, status, result) =>
      db.(operations := db.operations[o := db.operations[o].(status := status, result := result)])
  }

  ghost function Write(db: Db, c: Change): Db
    requires Allowed(db, c) && Inv(db)
  {
    Rows(db, c).(events := db.events + [EventOf(db, c)])
  }

  // ---------------------------------------------------------------- invariant

  /** The current lease carries the job's own generation; lease identifiers are not shared. */
  ghost predicate LeasesInv(db: Db) {
    && (forall j :: j in db.leases ==> j in db.jobs && db.leases[j].generation == db.jobs[j].generation)
    && (forall j, k :: j in db.leases && k in db.leases && j != k ==> db.leases[j].id != db.leases[k].id)
  }

  /** Exactly the open rows keep their secret; exactly the starting rows name a client. */
  predicate RowInv(h: Handoff) {
    && (h.secret == if Open(h) then Some(h.nonceHash.of) else None)
    && (h.state == Starting <==> h.startingBy.Some?)
    && (h.state == Starting <==> h.startingExpires.Some?)
    && (h.startingExpires.Some? ==> h.startingExpires.value <= h.expires)
  }

  ghost predicate RowsInv(db: Db) {
    forall h :: h in db.handoffs ==> db.handoffs[h].job in db.jobs && RowInv(db.handoffs[h])
  }

  /** A lease and an open handoff never coexist; a terminal job has no open handoff. */
  ghost predicate ExclusionInv(db: Db) {
    forall h :: h in db.handoffs && Open(db.handoffs[h]) ==>
      && db.handoffs[h].job !in db.leases
      && (db.handoffs[h].job in db.jobs ==> !Terminal(db.jobs[db.handoffs[h].job].lifecycle))
  }

  /** Both partial unique indexes and the nonce index. */
  ghost predicate IndexInv(db: Db) {
    forall h, k :: h in db.handoffs && k in db.handoffs && h != k ==> Compatible(db.handoffs[h], db.handoffs[k])
  }

  ghost predicate HandoffsInv(db: Db) {
    RowsInv(db) && ExclusionInv(db) && IndexInv(db)
  }

  predicate Compatible(a: Handoff, b: Handoff) {
    && a.nonceHash != b.nonceHash
    && !(a.job == b.job && Open(a) && Open(b))
    && !(a.state == Starting && b.state == Starting && a.startingBy == b.startingBy)
  }

  ghost predicate OperationsInv(db: Db) {
    && (forall o :: o in db.operations ==> db.operations[o].job in db.jobs)
    && (forall o :: o in db.operations && Unresolved(db.operations[o]) ==>
      !Terminal(db.jobs[db.operations[o].job].lifecycle))
    && (forall o, p :: o in db.operations && p in db.operations && o != p ==>
      db.operations[o].job == db.operations[p].job ==>
        db.operations[o].key != db.operations[p].key
        && !(Unresolved(db.operations[o]) && Unresolved(db.operations[p])))
  }

  ghost predicate Inv(db: Db) {
    && LeasesInv(db) && HandoffsInv(db) && OperationsInv(db)
    && forall i :: 0 <= i < |db.events| ==> db.events[i].job in db.jobs
  }

  lemma WriteKeepsLeasesInv(db: Db, c: Change)
    requires Inv(db) && Allowed(db, c)
    ensures LeasesInv(Write(db, c))
  {
    hide OperationsInv, IndexInv, HasUnresolved;
  }

  lemma WriteKeepsRowsInv(db: Db, c: Change)
    requires Inv(db) && Allowed(db, c)
    ensures RowsInv(Write(db, c))
  {
    hide LeasesInv, OperationsInv, IndexInv, HasUnresolved;
  }

  lemma WriteKeepsExclusionInv(db: Db, c: Change)
    requires Inv(db) && Allowed(db, c)
    ensures ExclusionInv(Write(db, c))
  {
    hide OperationsInv, HasUnresolved;
    var t := Write(db, c);
    forall h | h in t.handoffs && Open(t.handoffs[h])
      ensures t.handoffs[h].job !in t.leases
      ensures t.handoffs[h].job in t.jobs ==> !Terminal(t.jobs[t.handoffs[h].job].lifecycle)
    {
      if h in db.handoffs {
        assert OpenFor(db, db.handoffs[h].job, h) && t.handoffs[h].job == db.handoffs[h].job;
        if c.ClaimHandoff? {
          assert Compatible(db.handoffs[h], db.handoffs[c.handoff]);
        }
      }
    }
  }

  lemma WriteKeepsIndexInv(db: Db, c: Change)
    requires Inv(db) && Allowed(db, c)
    ensures IndexInv(Write(db, c))
  {
    hide OperationsInv, LeasesInv, HasUnresolved;
    var t := Write(db, c);
    forall h, k | h in t.handoffs && k in t.handoffs && h != k
      ensures Compatible(t.handoffs[h], t.handoffs[k])
    {
      if h in db.handoffs && k in db.handoffs {
        assert Compatible(db.handoffs[h], db.handoffs[k]);
      }
    }
  }

  lemma WriteKeepsOperationsInv(db: Db, c: Change)
    requires Inv(db) && Allowed(db, c)
    ensures OperationsInv(Write(db, c))
  {
    hide LeasesInv, HandoffsInv, HasOpen;
  }

  lemma WriteKeepsInv(db: Db, c: Change)
    requires Inv(db) && Allowed(db, c)
    ensures Inv(Write(db, c))
  {
    WriteKeepsLeasesInv(db, c);
    WriteKeepsRowsInv(db, c);
    WriteKeepsExclusionInv(db, c);
    WriteKeepsIndexInv(db, c);
    WriteKeepsOperationsInv(db, c);
  }
}
