/**
One dispatcher as it runs: `_begin`, the service call, `_finish`, each a transaction of its own.  A
dispatch is proved to be a run of the journal's machine, so everything proved of the machine holds
for it.
*/
module HarnessDispatch {
  import opened Prelude
  import opened HarnessTables
  import HC = HarnessCalls
  import opened HarnessRuns
  import HS = HarnessService
  import opened HarnessProtocol

  datatype Answer = Reported(response: Response) | Cached(response: Response) | Indeterminate | Internal

  /** The message is refused; a row that its identifier has already started is settled as failed with it. */
  predicate RefusedAs(rows: map<RequestId, Row>, id: RequestId, reason: Reason, answer: Answer, after: map<RequestId, Row>) {
    && answer == Reported(Failure(reason))
    && after == if id in rows && rows[id].status.RowStarted?
       then rows[id := Row(rows[id].fingerprint, RowFailed, Some(Failure(reason)))] else rows
  }

  /** The answer and the row of a request that has run: the service's own reply, or its error. */
  ghost predicate RepliesWith(
    o: HC.Outcome, before: Db, after: Db, body: Body, answer: Answer, row: Row)
    requires Inv(before) && (o.Ok? ==> HC.Legal(before, o.value.0))
  {
    && row.fingerprint == Fingerprint(body)
    && match o
       case Ok((cs, reply)) =>
         after == HC.Commit(before, cs) && answer == Reported(Success(reply))
         && row.status.RowCompleted? && row.response == Some(Success(reply))
       case Err(e) => after == before && FailsWith(e, answer, row)
  }

  /** Only an error of the harness becomes a response; any other leaves the request started. */
  predicate FailsWith(e: HC.Error, answer: Answer, row: Row) {
    if e.Integrity? then answer.Internal? && row.status.RowStarted? && row.response.None?
    else
      && answer == Reported(Failure(ServiceError(e))) && row.status.RowFailed?
      && row.response == Some(Failure(ServiceError(e)))
  }

  /**
  What a mutation does: a malformed message or a reused identifier is refused; a known request is answered
  from its row and nothing runs; a new one runs once and its row records the answer.
  */
  ghost predicate Mutates(s: Sys, t: Sys, m: Message, now: Time, luck: HC.Luck, answer: Answer)
    requires Inv(s.db) && m.request.Some? && !m.body.call.ReserveReentry? && !m.body.call.ReleaseReentry?
  {
    var id := m.request.value;
    if !m.body.wellFormed || !id.wellFormed then
      t.db == s.db && t.history == s.history && RefusedAs(s.rows, id, BadMessage, answer, t.rows)
    else if id in s.rows && s.rows[id].fingerprint.of != m.body then
      t.db == s.db && t.history == s.history && RefusedAs(s.rows, id, IdReused, answer, t.rows)
    else if id in s.rows then
      && t.db == s.db && t.history == s.history && t.rows == s.rows
      && if s.rows[id].status.RowStarted? then answer.Indeterminate?
         else answer.Cached? && s.rows[id].response == Some(answer.response)
    else
      && t.history == s.history + [Executed(m.request, Step(m.body.call, now, luck))]
      && t.rows.Keys == s.rows.Keys + {id} && (forall k :: k in s.rows ==> t.rows[k] == s.rows[k])
      && RepliesWith(Serve(s.db, m.body.call, now, luck), s.db, t.db, m.body, answer, t.rows[id])
  }

  /** A read is the service's call and leaves the journal alone. */
  ghost predicate Looks(s: Sys, t: Sys, m: Message, now: Time, luck: HC.Luck, answer: Answer)
    requires Inv(s.db) && m.body.call.GetJob?
  {
    && t.rows == s.rows
    && match Serve(s.db, m.body.call, now, luck)
       case Ok((cs, reply)) => t.db == HC.Commit(s.db, cs) && answer == Reported(Success(reply))
       case Err(e) => t.db == s.db && answer == if e.Integrity? then Internal else Reported(Failure(ServiceError(e)))
  }

  lemma RepliesExactly(
    o: HC.Outcome, before: Db, after: Db, r: Result<HC.Reply, HC.Error>, body: Body, answer: Answer, row: Row)
    requires Inv(before) && (o.Ok? ==> HC.Legal(before, o.value.0)) && HS.Answered(o, before, after, r)
    requires row.fingerprint == Fingerprint(body)
    requires match r
      case Ok(reply) => answer == Reported(Success(reply)) && row.status.RowCompleted? && row.response == Some(Success(reply))
      case Err(e) => FailsWith(e, answer, row)
    ensures RepliesWith(o, before, after, body, answer, row)
  {
    hide HC.Commit, HC.Legal, Inv;
  }

  class LocalProtocol {
    const service: HS.Service
    var rows: map<RequestId, Row>
    ghost var history: seq<Executed>

    ghost function State(): Sys
      reads this, service
    {
      Sys(service.Tables(), rows, map[], history)
    }

    ghost predicate Valid()
      reads this, service
    {
      service.Valid() && RowsOk(State())
    }

    constructor (s: HS.Service)
      requires s.Valid()
      ensures service == s && rows == map[] && history == [] && Valid()
    {
      service, rows, history := s, map[], [];
    }

    /** Some(answer) when the request is not to run now; Err when the message is refused. */
    method BeginRequest(id: RequestId, body: Body) returns (r: Result<Option<Answer>, Reason>)
      modifies this`rows
      ensures Refusal(old(rows), id, body).Some? ==> r == Err(Refusal(old(rows), id, body).value) && rows == old(rows)
      ensures Refusal(old(rows), id, body).None? && id in old(rows) ==>
        && rows == old(rows)
        && r == Ok(Some(if rows[id].response.Some? then Cached(rows[id].response.value) else Indeterminate))
      ensures Refusal(old(rows), id, body).None? && id !in old(rows) ==>
        r == Ok(None) && rows == old(rows)[id := Row(Fingerprint(body), RowStarted, None)]
    {
      if !body.wellFormed || !id.wellFormed {
        return Err(BadMessage);
      }
      if id in rows {
        var row := rows[id];
        if row.fingerprint != Fingerprint(body) {
          return Err(IdReused);
        }
        if row.response.Some? {
          return Ok(Some(Cached(row.response.value)));
        }
        return Ok(Some(Indeterminate));
      }
      rows := rows[id := Row(Fingerprint(body), RowStarted, None)];
      return Ok(None);
    }

    method FinishRequest(id: RequestId, response: Response)
      modifies this`rows
      ensures rows == Settle(old(rows), id, response)
    {
      if id in rows && rows[id].status == RowStarted {
        var status := if response.Failure? then RowFailed else RowCompleted;
        rows := rows[id := Row(rows[id].fingerprint, status, Some(response))];
      }
    }

    method Call(call: HC.Call, now: Time, luck: HC.Luck) returns (r: Result<HC.Reply, HC.Error>)
      requires service.Valid() && !call.ReserveReentry? && !call.ReleaseReentry?
      modifies service
      ensures service.Valid()
      ensures HS.Answered(Serve(old(service.Tables()), call, now, luck), old(service.Tables()), service.Tables(), r)
    {
      hide HC.Create, HC.Get, HC.Acquire, HC.RenewCall, HC.Release, HC.UpdateCall, HC.HandOff, HC.Claim, HC.StartOp;
      hide HC.FinishOp, HC.Commit, HC.Legal, Inv;
      match call {
        case CreateJob(job, named, lifecycle, columns) => r := service.CreateJob(job, named, lifecycle, columns);
        case GetJob(job) => r := service.GetJob(job, now);
        case AcquireLease(job, holder, ttl) => r := service.AcquireLease(job, holder, ttl, now, luck.lease);
        case RenewLease(t, ttl) => r := service.RenewLease(t, ttl, now);
        case ReleaseLease(t) => r := service.ReleaseLease(t, now);
        case UpdateJob(t, expected, target, columns) => r := service.UpdateJob(t, expected, target, columns, now);
        case CreateHandoff(t, ttl) => r := service.CreateHandoff(t, ttl, now, luck.handoff, luck.nonce);
        case ClaimHandoffCall(job, nonce, holder, ttl) =>
          r := service.ClaimHandoff(job, nonce, holder, ttl, now, luck.lease);
        case StartOperationCall(t, key, payload) => r := service.StartOperation(t, key, payload, now, luck.operation);
        case FinishOperation(t, o, status, result) => r := service.FinishOperation(t, o, status, result, now);
      }
    }

    /** The service's transaction for a begun request, and `_finish` unless the failure was unexpected. */
    method RunBegun(id: RequestId, body: Body, now: Time, luck: HC.Luck) returns (answer: Answer)
      requires service.Valid() && Mutating(body.call) && id in rows && rows[id] == Row(Fingerprint(body), RowStarted, None)
      modifies this`rows, this`history, service
      ensures service.Valid() && history == old(history) + [Executed(Some(id), Step(body.call, now, luck))]
      ensures rows.Keys == old(rows).Keys && forall k :: k in rows && k != id ==> rows[k] == old(rows)[k]
      ensures RepliesWith(
        Serve(old(service.Tables()), body.call, now, luck), old(service.Tables()), service.Tables(), body, answer, rows[id])
      ensures service.Tables() == Next(old(service.Tables()), Step(body.call, now, luck))
      ensures rows == match Report(old(service.Tables()), Step(body.call, now, luck))
        case None => old(rows)
        case Some(response) => Settle(old(rows), id, response)
    {
      hide Serve, Next, Inv, HS.Answered, RepliesWith, HC.Legal, Report;
      ghost var step := Step(body.call, now, luck);
      ghost var db := service.Tables();
      var r := Call(body.call, now, luck);
      Answering(db, step, service.Tables(), r);
      history := history + [Executed(Some(id), step)];
      match r {
        case Ok(reply) =>
          FinishRequest(id, Success(reply));
          answer := Reported(Success(reply));
        case Err(e) =>
          if e == HC.Integrity {
            answer := Internal;
          } else {
            FinishRequest(id, Failure(ServiceError(e)));
            answer := Reported(Failure(ServiceError(e)));
          }
      }
      RepliesExactly(Serve(db, body.call, now, luck), db, service.Tables(), r, body, answer, rows[id]);
    }

    /** A mutation: the three transactions of `dispatch`, with `_finish` on either outcome. */
    method DispatchMutation(m: Message, now: Time, luck: HC.Luck) returns (answer: Answer)
      requires Valid() && Mutating(m.body.call) && m.request.Some?
      modifies this, service
      ensures service.Valid()
      ensures State() == Exec(old(State()), [Begin(0, m), Execute(0, now, luck), Finish(0)]).(workers := map[])
      ensures Mutates(old(State()), State(), m, now, luck, answer)
    {
      hide Serve, Next, Inv, HS.Answered, RepliesWith, HC.Legal;
      var id := m.request.value;
      ghost var s := State();
      ExecThree(s, Begin(0, m), Execute(0, now, luck), Finish(0));
      hide Exec;
      var begun := BeginRequest(id, m.body);
      match begun {
        case Err(reason) =>
          FinishRequest(id, Failure(reason));
          answer := Reported(Failure(reason));
        case Ok(Some(already)) =>
          assert RowOk(s.history, id, s.rows[id]);
          answer := already;
        case Ok(None) =>
          answer := RunBegun(id, m.body, now, luck);
      }
    }

    /** `dispatch`: reads go straight to the service, mutations through the journal. */
    method Dispatch(m: Message, now: Time, luck: HC.Luck) returns (answer: Answer)
      requires Valid() && !m.body.call.ReserveReentry? && !m.body.call.ReleaseReentry?
      modifies this, service
      ensures service.Valid()
      ensures m.body.call.GetJob? && !m.body.wellFormed ==> answer == Reported(Failure(BadMessage)) && State() == old(State())
      ensures m.body.call.GetJob? && m.body.wellFormed ==>
        Looks(old(State()), State(), m, now, luck, answer) && State() == Apply(old(State()), Other(Step(m.body.call, now, luck)))
      ensures !m.body.call.GetJob? && m.request.None? ==> answer == Reported(Failure(BadMessage)) && State() == old(State())
      ensures !m.body.call.GetJob? && m.request.Some? ==>
        && Mutates(old(State()), State(), m, now, luck, answer)
        && State() == Exec(old(State()), [Begin(0, m), Execute(0, now, luck), Finish(0)]).(workers := map[])
    {
      hide Serve, Next, Inv, HS.Answered, Exec, Report, Mutates, Looks;
      if Mutating(m.body.call) {
        if m.request.None? {
          return Reported(Failure(BadMessage));
        }
        answer := DispatchMutation(m, now, luck);
        return;
      }
      if !m.body.wellFormed {
        return Reported(Failure(BadMessage));
      }
      ghost var s := State();
      ghost var step := Step(m.body.call, now, luck);
      var r := Call(m.body.call, now, luck);
      Answering(s.db, step, service.Tables(), r);
      history := history + [Executed(None, step)];
      match r {
        case Ok(reply) => answer := Reported(Success(reply));
        case Err(e) => answer := if e == HC.Integrity then Internal else Reported(Failure(ServiceError(e)));
      }
      LooksExactly(s, State(), m, now, luck, r, answer);
    }
  }

  /** What the service did and answered is what the machine's transaction does and reports. */
  lemma Answering(db: Db, step: Step, after: Db, r: Result<HC.Reply, HC.Error>)
    requires Inv(db) && Lucky(db, step.call, step.now, step.luck)
    requires HS.Answered(Serve(db, step.call, step.now, step.luck), db, after, r)
    ensures after == Next(db, step)
    ensures Report(db, step) == match r
      case Ok(reply) => Some(Success(reply))
      case Err(e) => if e == HC.Integrity then None else Some(Failure(ServiceError(e)))
  {
  }

  lemma LooksExactly(
    s: Sys, t: Sys, m: Message, now: Time, luck: HC.Luck, r: Result<HC.Reply, HC.Error>, answer: Answer)
    requires Inv(s.db) && m.body.call.GetJob? && t.rows == s.rows
    requires HS.Answered(Serve(s.db, m.body.call, now, luck), s.db, t.db, r)
    requires answer == match r
      case Ok(reply) => Reported(Success(reply))
      case Err(e) => if e == HC.Integrity then Internal else Reported(Failure(ServiceError(e)))
    ensures Looks(s, t, m, now, luck, answer)
  {
    hide Serve, HC.Commit, HC.Legal, Inv;
  }
}
