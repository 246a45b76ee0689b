/**
The request journal in front of the harness, shared by any number of dispatchers: a mutation inserts a
`started` row, runs its one service transaction, then settles the row.  Every database transaction is
one step; a dispatcher may stop between any two of them.  The history is a ghost record of which
request caused each service transaction.
*/
module HarnessProtocol {
  import opened Prelude
  import opened HarnessTables
  import HC = HarnessCalls
  import opened HarnessRuns

  datatype RequestId = RequestId(name: nat, wellFormed: bool)

  /** Action and arguments; whether they pass `_validate_action_args` depends on nothing else. */
  datatype Body = Body(call: HC.Call, wellFormed: bool)

  datatype Message = Message(request: Option<RequestId>, body: Body)

  datatype Fingerprint = Fingerprint(of: Body)

  datatype Reason = ServiceError(error: HC.Error) | BadMessage | IdReused

  datatype Response = Success(reply: HC.Reply) | Failure(reason: Reason)

  datatype RowStatus = RowStarted | RowCompleted | RowFailed

  datatype Row = Row(fingerprint: Fingerprint, status: RowStatus, response: Option<Response>)

  /** What a dispatcher still has to do. */
  datatype Phase = Idle | Begun(id: RequestId, body: Body) | Finishing(id: RequestId, body: Body, response: Response)

  type Worker = nat

  datatype Executed = Executed(origin: Option<RequestId>, step: Step)

  datatype Sys = Sys(db: Db, rows: map<RequestId, Row>, workers: map<Worker, Phase>, history: seq<Executed>)

  const INITIAL := Sys(EMPTY, map[], map[], [])

  datatype Label =
    | Begin(worker: Worker, message: Message)
    | Execute(worker: Worker, now: Time, luck: HC.Luck)
    | Finish(worker: Worker)
    | Stop(worker: Worker)
    | Other(step: Step)

  predicate Mutating(call: HC.Call) {
    !call.GetJob? && !call.ReserveReentry? && !call.ReleaseReentry?
  }

  function At(s: Sys, w: Worker): Phase {
    if w in s.workers then s.workers[w] else Idle
  }

  /** Why `_validate_action_args` or `_begin` raises, if it does. */
  function Refusal(rows: map<RequestId, Row>, id: RequestId, body: Body): Option<Reason> {
    if !body.wellFormed || !id.wellFormed then Some(BadMessage)
    else if id in rows && rows[id].fingerprint != Fingerprint(body) then Some(IdReused)
    else None
  }

  /** The service's answer as the dispatcher reports it; only a HarnessError becomes a response. */
  ghost function Report(db: Db, step: Step): Option<Response>
    requires Inv(db)
  {
    if !Lucky(db, step.call, step.now, step.luck) then None
    else
      match Serve(db, step.call, step.now, step.luck)
      case Ok((_, reply)) => Some(Success(reply))
      case Err(e) => if e == HC.Integrity then None else Some(Failure(ServiceError(e)))
  }

  function Settle(rows: map<RequestId, Row>, id: RequestId, response: Response): map<RequestId, Row> {
    if id in rows && rows[id].status == RowStarted then
      rows[id := rows[id].(
        status := if response.Failure? then RowFailed else RowCompleted, response := Some(response))]
    else rows
  }

  function Started(s: Sys, w: Worker, m: Message): Sys {
    if At(s, w) != Idle || !Mutating(m.body.call) || m.request.None? then s
    else
      var id := m.request.value;
      var refusal := Refusal(s.rows, id, m.body);
      if refusal.Some? then s.(workers := s.workers[w := Finishing(id, m.body, Failure(refusal.value))])
      else if id in s.rows then s
      else
        s.(rows := s.rows[id := Row(Fingerprint(m.body), RowStarted, None)],
           workers := s.workers[w := Begun(id, m.body)])
  }

  ghost function Ran(s: Sys, w: Worker, now: Time, luck: HC.Luck): Sys
    requires Inv(s.db)
  {
    match At(s, w)
    case Begun(id, body) =>
      var step := Step(body.call, now, luck);
      var report := Report(s.db, step);
      Sys(Next(s.db, step), s.rows,
          s.workers[w := if report.Some? then Finishing(id, body, report.value) else Idle],
          s.history + [Executed(Some(id), step)])
    case _ => s
  }

  function Finished(s: Sys, w: Worker): Sys {
    match At(s, w)
    case Finishing(id, _, response) => s.(rows := Settle(s.rows, id, response), workers := s.workers[w := Idle])
    case _ => s
  }

  /** `Stop` is a crash or an unexpected exception; `Other` a read or a browser call outside the journal. */
  ghost function Apply(s: Sys, l: Label): (t: Sys)
    requires Inv(s.db)
    ensures Inv(t.db)
  {
    match l
    case Begin(w, m) => Started(s, w, m)
    case Execute(w, now, luck) => Ran(s, w, now, luck)
    case Finish(w) => Finished(s, w)
    case Stop(w) => s.(workers := s.workers[w := Idle])
    case Other(step) => s.(db := Next(s.db, step), history := s.history + [Executed(None, step)])
  }

  ghost function Exec(s: Sys, labels: seq<Label>): (t: Sys)
    requires Inv(s.db)
    ensures Inv(t.db)
    decreases |labels|
  {
    if labels == [] then s else Exec(Apply(s, labels[0]), labels[1..])
  }

  // ---------------------------------------------------------------- invariant

  function Steps(history: seq<Executed>): (r: seq<Step>)
    ensures |r| == |history| && forall i :: 0 <= i < |r| ==> r[i] == history[i].step
  {
    seq(|history|, i requires 0 <= i < |history| => history[i].step)
  }

  /** The i-th service transaction was caused by this request and answered like this. */
  ghost predicate AnsweredAt(history: seq<Executed>, i: nat, id: RequestId, response: Response) {
    && i < |history| && history[i].origin == Some(id)
    && Report(Play(EMPTY, Steps(history[..i])), history[i].step) == Some(response)
  }

  ghost predicate Produced(history: seq<Executed>, id: RequestId, response: Response) {
    exists i: nat :: AnsweredAt(history, i, id, response)
  }

  predicate HasRun(history: seq<Executed>, id: RequestId) {
    exists i :: 0 <= i < |history| && history[i].origin == Some(id)
  }

  /** The tables are those of the history played one transaction after the other, each request once. */
  ghost predicate HistoryInv(s: Sys) {
    && s.db == Play(EMPTY, Steps(s.history))
    && (forall i, j :: 0 <= i < j < |s.history| && s.history[i].origin.Some? ==>
      s.history[i].origin != s.history[j].origin)
    && (forall i :: 0 <= i < |s.history| && s.history[i].origin.Some? ==>
      var id := s.history[i].origin.value;
      id in s.rows && s.rows[id].fingerprint.of.call == s.history[i].step.call)
  }

  ghost predicate RowOk(history: seq<Executed>, id: RequestId, row: Row) {
    && id.wellFormed && row.fingerprint.of.wellFormed
    && match row.status
       case RowStarted => row.response.None?
       case RowCompleted =>
         row.response.Some? && row.response.value.Success? && Produced(history, id, row.response.value)
       case RowFailed =>
         row.response.Some? && row.response.value.Failure?
         && (row.response.value.reason.ServiceError? ==> Produced(history, id, row.response.value))
  }

  ghost predicate RowsOk(s: Sys) {
    forall id :: id in s.rows ==> RowOk(s.history, id, s.rows[id])
  }

  /** A begun request has a row with its own body and has not run; a refused message never owns its row. */
  ghost predicate PhaseOk(s: Sys, phase: Phase) {
    match phase
    case Idle => true
    case Begun(id, body) =>
      id in s.rows && s.rows[id].fingerprint == Fingerprint(body) && !HasRun(s.history, id)
    case Finishing(id, body, response) =>
      if Refusal(s.rows, id, body).Some? then response.Failure? && !response.reason.ServiceError?
      else
        && id in s.rows && Produced(s.history, id, response)
        && (response.Failure? ==> response.reason.ServiceError?)
  }

  ghost predicate WorkersOk(s: Sys) {
    && (forall w :: w in s.workers ==> PhaseOk(s, s.workers[w]))
    && (forall v, w :: v in s.workers && w in s.workers && v != w && s.workers[v].Begun? && s.workers[w].Begun? ==>
      s.workers[v].id != s.workers[w].id)
  }

  ghost predicate ProtocolInv(s: Sys) {
    Inv(s.db) && HistoryInv(s) && RowsOk(s) && WorkersOk(s)
  }

  lemma {:induction false} PlayLast(db: Db, steps: seq<Step>, step: Step)
    requires Inv(db)
    ensures Play(db, steps + [step]) == Next(Play(db, steps), step)
    decreases |steps|
  {
    if steps == [] {
      assert (steps + [step])[1..] == [];
    } else {
      assert (steps + [step])[1..] == steps[1..] + [step];
      PlayLast(Next(db, steps[0]), steps[1..], step);
    }
  }

  lemma StepsLast(history: seq<Executed>, e: Executed)
    ensures Steps(history + [e]) == Steps(history) + [e.step]
  {
  }

  lemma ProducedLonger(history: seq<Executed>, e: Executed, id: RequestId, response: Response)
    requires Produced(history, id, response)
    ensures Produced(history + [e], id, response)
  {
    var i: nat :| AnsweredAt(history, i, id, response);
    assert (history + [e])[..i] == history[..i];
    assert AnsweredAt(history + [e], i, id, response);
  }

  // ---------------------------------------------------------------- each step

  lemma BeginKeepsInv(s: Sys, w: Worker, m: Message)
    requires ProtocolInv(s)
    ensures ProtocolInv(Started(s, w, m))
  {
    hide Inv, Play, Produced;
    var t := Started(s, w, m);
    if t != s && m.request.value !in s.rows && Refusal(s.rows, m.request.value, m.body).None? {
      var id := m.request.value;
      assert !HasRun(s.history, id);
      forall v | v in t.workers
        ensures PhaseOk(t, t.workers[v])
      {
        if v != w {
          assert PhaseOk(s, s.workers[v]);
        }
      }
    }
  }

  lemma FinishKeepsInv(s: Sys, w: Worker)
    requires ProtocolInv(s)
    ensures ProtocolInv(Finished(s, w))
  {
    hide Inv, Play, Produced, HasRun;
    var t := Finished(s, w);
    if At(s, w).Finishing? {
      var id := s.workers[w].id;
      assert PhaseOk(s, s.workers[w]);
      assert forall k :: k in t.rows ==> k in s.rows && t.rows[k].fingerprint == s.rows[k].fingerprint;
      forall v | v in t.workers
        ensures PhaseOk(t, t.workers[v])
      {
        assert v != w ==> PhaseOk(s, s.workers[v]);
      }
    }
  }

  predicate OwnsRow(s: Sys, id: RequestId, step: Step) {
    id in s.rows && !HasRun(s.history, id) && s.rows[id].fingerprint.of.call == step.call
  }

  /** A service transaction appends to the history and leaves the journal's rows alone. */
  lemma HistoryGrows(s: Sys, e: Executed, t: Sys)
    requires ProtocolInv(s) && t.rows == s.rows && t.history == s.history + [e] && t.db == Next(s.db, e.step)
    requires e.origin.Some? ==> OwnsRow(s, e.origin.value, e.step)
    ensures HistoryInv(t) && RowsOk(t)
    ensures e.origin.Some? && Report(s.db, e.step).Some? ==>
      Produced(t.history, e.origin.value, Report(s.db, e.step).value)
  {
    hide Inv, Play, Report, Produced, Next;
    StepsLast(s.history, e);
    PlayLast(EMPTY, Steps(s.history), e.step);
    forall id | id in t.rows
      ensures RowOk(t.history, id, t.rows[id])
    {
      RowOkLonger(s.history, e, id, s.rows[id]);
    }
    assert t.history[..|s.history|] == s.history;
    if e.origin.Some? && Report(s.db, e.step).Some? {
      assert AnsweredAt(t.history, |s.history|, e.origin.value, Report(s.db, e.step).value);
      ProducedBy(t.history, |s.history|, e.origin.value, Report(s.db, e.step).value);
    }
  }

  lemma ProducedBy(history: seq<Executed>, i: nat, id: RequestId, response: Response)
    requires AnsweredAt(history, i, id, response)
    ensures Produced(history, id, response)
  {
  }

  lemma RowOkLonger(history: seq<Executed>, e: Executed, id: RequestId, row: Row)
    requires RowOk(history, id, row)
    ensures RowOk(history + [e], id, row)
  {
    if row.response.Some? && Produced(history, id, row.response.value) {
      ProducedLonger(history, e, id, row.response.value);
    }
  }

  lemma PhaseOkLonger(s: Sys, e: Executed, t: Sys, phase: Phase)
    requires t.rows == s.rows && t.history == s.history + [e] && PhaseOk(s, phase)
    requires phase.Begun? ==> e.origin != Some(phase.id)
    ensures PhaseOk(t, phase)
  {
    if phase.Finishing? && Refusal(s.rows, phase.id, phase.body).None? {
      ProducedLonger(s.history, e, phase.id, phase.response);
    }
  }

  lemma ExecuteKeepsInv(s: Sys, w: Worker, now: Time, luck: HC.Luck)
    requires ProtocolInv(s)
    ensures ProtocolInv(Ran(s, w, now, luck))
  {
    var t := Ran(s, w, now, luck);
    if At(s, w).Begun? {
      var e := Executed(Some(s.workers[w].id), Step(s.workers[w].body.call, now, luck));
      assert PhaseOk(s, s.workers[w]);
      assert RowOk(s.history, s.workers[w].id, s.rows[s.workers[w].id]);
      HistoryGrows(s, e, t);
      forall v | v in t.workers
        ensures PhaseOk(t, t.workers[v])
      {
        if v != w {
          PhaseOkLonger(s, e, t, s.workers[v]);
        }
      }
    }
  }

  lemma OtherKeepsInv(s: Sys, step: Step)
    requires ProtocolInv(s)
    ensures ProtocolInv(Apply(s, Other(step)))
  {
    var t := Apply(s, Other(step));
    HistoryGrows(s, Executed(None, step), t);
    forall v | v in t.workers
      ensures PhaseOk(t, t.workers[v])
    {
      PhaseOkLonger(s, Executed(None, step), t, s.workers[v]);
    }
  }

  lemma ApplyKeepsInv(s: Sys, l: Label)
    requires ProtocolInv(s)
    ensures ProtocolInv(Apply(s, l))
  {
    match l
    case Begin(w, m) => BeginKeepsInv(s, w, m);
    case Execute(w, now, luck) => ExecuteKeepsInv(s, w, now, luck);
    case Finish(w) => FinishKeepsInv(s, w);
    case Stop(w) =>
      var t := Apply(s, l);
      forall v | v in t.workers
        ensures PhaseOk(t, t.workers[v])
      {
        assert v != w ==> PhaseOk(s, s.workers[v]);
      }
    case Other(step) => OtherKeepsInv(s, step);
  }

  lemma {:induction false} ExecKeepsInv(s: Sys, labels: seq<Label>)
    requires ProtocolInv(s)
    ensures ProtocolInv(Exec(s, labels))
    decreases |labels|
  {
    if labels != [] {
      ApplyKeepsInv(s, labels[0]);
      ExecKeepsInv(Apply(s, labels[0]), labels[1..]);
    }
  }

  // ---------------------------------------------------------------- whole runs

  /**
  Under any stream of duplicated, reordered, retried or foreign messages and any stops, the tables are
  those of a sequential run that applies each executed request once, as the call its own row was
  opened with; and a completed row holds the response that this one execution gave.
  */
  lemma TablesAreASequentialRun(labels: seq<Label>)
    ensures var t := Exec(INITIAL, labels);
      && t.db == Play(EMPTY, Steps(t.history))
      && (forall i, j :: 0 <= i < j < |t.history| && t.history[i].origin.Some? ==>
        t.history[i].origin != t.history[j].origin)
      && (forall i :: 0 <= i < |t.history| && t.history[i].origin.Some? ==>
        var id := t.history[i].origin.value;
        id in t.rows && t.history[i].step.call == t.rows[id].fingerprint.of.call)
      && (forall id :: id in t.rows && t.rows[id].status == RowCompleted ==>
        t.rows[id].response.Some? && Produced(t.history, id, t.rows[id].response.value))
  {
    ExecKeepsInv(INITIAL, labels);
    var t := Exec(INITIAL, labels);
    assert forall id :: id in t.rows ==> RowOk(t.history, id, t.rows[id]);
  }

  /** A settled row never changes again. */
  lemma {:induction false} SettledRowsFrozen(s: Sys, labels: seq<Label>, id: RequestId)
    requires Inv(s.db) && id in s.rows && s.rows[id].status != RowStarted
    ensures id in Exec(s, labels).rows && Exec(s, labels).rows[id] == s.rows[id]
    decreases |labels|
  {
    if labels != [] {
      SettledRowsFrozen(Apply(s, labels[0]), labels[1..], id);
    }
  }

  predicate Abandoned(s: Sys, id: RequestId) {
    id in s.rows && forall w :: w in s.workers && s.workers[w].Begun? ==> s.workers[w].id != id
  }

  /** A row whose dispatcher is gone, or whose request has run, causes no service transaction again. */
  lemma {:induction false} AbandonedNeverRuns(s: Sys, labels: seq<Label>, id: RequestId)
    requires Inv(s.db) && Abandoned(s, id)
    ensures var t := Exec(s, labels);
      && Abandoned(t, id) && |s.history| <= |t.history|
      && forall i :: |s.history| <= i < |t.history| ==> t.history[i].origin != Some(id)
    decreases |labels|
  {
    if labels != [] {
      var u := Apply(s, labels[0]);
      AbandonedStep(s, labels[0], id);
      AbandonedNeverRuns(u, labels[1..], id);
      HistoryPrefix(u, labels[1..]);
      var t := Exec(s, labels);
      forall i | |s.history| <= i < |t.history|
        ensures t.history[i].origin != Some(id)
      {
        if i < |u.history| {
          assert t.history[i] == u.history[i];
        }
      }
    }
  }

  lemma AbandonedStep(s: Sys, l: Label, id: RequestId)
    requires Inv(s.db) && Abandoned(s, id)
    ensures var t := Apply(s, l);
      && Abandoned(t, id) && |s.history| <= |t.history|
      && forall i :: |s.history| <= i < |t.history| ==> t.history[i].origin != Some(id)
  {
  }

  lemma {:induction false} HistoryPrefix(s: Sys, labels: seq<Label>)
    requires Inv(s.db)
    ensures s.history <= Exec(s, labels).history
    decreases |labels|
  {
    hide Inv, Next, Report;
    if labels != [] {
      HistoryPrefix(Apply(s, labels[0]), labels[1..]);
    }
  }

  // ---------------------------------------------------------------- what a failed row means

  /**
  A dispatcher about to write a failure over a `started` row reports that request's own execution if and
  only if the message it holds is the one the row was made for.
  */
  lemma FailureIsHonestIff(s: Sys, w: Worker)
    requires ProtocolInv(s) && At(s, w).Finishing? && At(s, w).response.Failure?
    requires At(s, w).id in s.rows && s.rows[At(s, w).id].status == RowStarted
    ensures var id := At(s, w).id;
      var row := Finished(s, w).rows[id];
      && row.status == RowFailed
      && (Produced(s.history, id, row.response.value) <==> s.rows[id].fingerprint == Fingerprint(At(s, w).body))
  {
    var id := At(s, w).id;
    assert PhaseOk(s, s.workers[w]) && RowOk(s.history, id, s.rows[id]);
    if Produced(s.history, id, At(s, w).response) {
      var i: nat :| AnsweredAt(s.history, i, id, At(s, w).response);
    }
  }

  /** Every message under this identifier carries the same body. */
  predicate OneBody(labels: seq<Label>, id: RequestId, body: Body) {
    forall i :: 0 <= i < |labels| && labels[i].Begin? && labels[i].message.request == Some(id) ==>
      labels[i].message.body == body
  }

  predicate OnlyThisBody(s: Sys, id: RequestId, body: Body) {
    && (id in s.rows ==> s.rows[id].fingerprint == Fingerprint(body))
    && forall w :: w in s.workers && s.workers[w] != Idle && s.workers[w].id == id ==> s.workers[w].body == body
  }

  ghost predicate FailedHonestly(s: Sys, id: RequestId) {
    id in s.rows && s.rows[id].status == RowFailed ==>
      s.rows[id].response.Some? && Produced(s.history, id, s.rows[id].response.value)
  }

  lemma {:induction false} HonestUnderOneBody(s: Sys, labels: seq<Label>, id: RequestId, body: Body)
    requires ProtocolInv(s) && OnlyThisBody(s, id, body) && FailedHonestly(s, id) && OneBody(labels, id, body)
    ensures FailedHonestly(Exec(s, labels), id)
    decreases |labels|
  {
    if labels != [] {
      var t := Apply(s, labels[0]);
      ApplyKeepsInv(s, labels[0]);
      HonestStep(s, labels[0], id, body);
      HonestUnderOneBody(t, labels[1..], id, body);
    }
  }

  lemma HonestStep(s: Sys, l: Label, id: RequestId, body: Body)
    requires ProtocolInv(s) && OnlyThisBody(s, id, body) && FailedHonestly(s, id) && OneBody([l], id, body)
    ensures OnlyThisBody(Apply(s, l), id, body) && FailedHonestly(Apply(s, l), id)
  {
    hide Inv, Play, Next, Report;
    var t := Apply(s, l);
    assert [l][0] == l;
    if id in t.rows && t.rows[id].status == RowFailed {
      if id in s.rows && s.rows[id].status == RowFailed {
        if t.history != s.history {
          ProducedLonger(s.history, t.history[|s.history|], id, s.rows[id].response.value);
        }
      } else {
        assert l.Finish? && PhaseOk(s, s.workers[l.worker]) && RowOk(s.history, id, s.rows[id]);
      }
    }
  }

  /** If no message reuses the identifier with another body, a failed row means its one run had no effect. */
  lemma FailedMeansNoEffect(labels: seq<Label>, id: RequestId, body: Body)
    requires OneBody(labels, id, body)
    ensures var t := Exec(INITIAL, labels);
      id in t.rows && t.rows[id].status == RowFailed ==>
        exists i: nat :: i < |t.history| && t.history[i].origin == Some(id)
          && Next(Play(EMPTY, Steps(t.history[..i])), t.history[i].step) == Play(EMPTY, Steps(t.history[..i]))
  {
    ExecKeepsInv(INITIAL, labels);
    HonestUnderOneBody(INITIAL, labels, id, body);
    var t := Exec(INITIAL, labels);
    if id in t.rows && t.rows[id].status == RowFailed {
      assert RowOk(t.history, id, t.rows[id]);
      var i: nat :| AnsweredAt(t.history, i, id, t.rows[id].response.value);
      assert Next(Play(EMPTY, Steps(t.history[..i])), t.history[i].step) == Play(EMPTY, Steps(t.history[..i]));
    }
  }

  /** A foreign message can mark a request failed although its effect is, or will be, committed. */
  lemma ForeignMessageMisreports(id: RequestId, luck: HC.Luck)
    requires id.wellFormed
    ensures var body := Body(HC.CreateJob(0, true, Lifecycle.Active, map[]), true);
      var foreign := Body(HC.CreateJob(0, true, Lifecycle.Active, map[]), false);
      var labels := [Begin(0, Message(Some(id), body)), Begin(1, Message(Some(id), foreign)),
        Execute(0, 0.0, luck), Finish(1), Finish(0)];
      var t := Exec(INITIAL, labels);
      && id in t.rows && t.rows[id].status == RowFailed && 0 in t.db.jobs
  {
    var body := Body(HC.CreateJob(0, true, Lifecycle.Active, map[]), true);
    var foreign := Body(HC.CreateJob(0, true, Lifecycle.Active, map[]), false);
    var m, n := Message(Some(id), body), Message(Some(id), foreign);
    ExecFive(INITIAL, Begin(0, m), Begin(1, n), Execute(0, 0.0, luck), Finish(1), Finish(0));
    var s2 := Started(Started(INITIAL, 0, m), 1, n);
    TwoBegun(id, body, foreign);
    CreationReported(luck);
    hide Exec, Inv, Next, Report, Finished, Ran, Started;
    MisreportedFailure(s2, id, body, foreign, luck);
  }

  lemma TwoBegun(id: RequestId, body: Body, foreign: Body)
    requires id.wellFormed && body.wellFormed && !foreign.wellFormed && Mutating(body.call) && Mutating(foreign.call)
    ensures Started(Started(INITIAL, 0, Message(Some(id), body)), 1, Message(Some(id), foreign)) ==
      Sys(EMPTY, map[id := Row(Fingerprint(body), RowStarted, None)],
        map[0 := Begun(id, body), 1 := Finishing(id, foreign, Failure(BadMessage))], [])
  {
  }

  lemma MisreportedFailure(s: Sys, id: RequestId, body: Body, foreign: Body, luck: HC.Luck)
    requires Inv(s.db) && id in s.rows && s.rows[id].status == RowStarted
    requires At(s, 0) == Begun(id, body) && At(s, 1) == Finishing(id, foreign, Failure(BadMessage))
    ensures var t := Finished(Finished(Ran(s, 0, 0.0, luck), 1), 0);
      && id in t.rows && t.rows[id].status == RowFailed && t.db == Next(s.db, Step(body.call, 0.0, luck))
  {
    hide Report, Next, Inv;
    var u := Ran(s, 0, 0.0, luck);
    assert At(u, 1) == At(s, 1) && u.rows == s.rows;
  }

  lemma CreationReported(luck: HC.Luck)
    ensures 0 in Next(EMPTY, Step(HC.CreateJob(0, true, Lifecycle.Active, map[]), 0.0, luck)).jobs
    ensures Report(EMPTY, Step(HC.CreateJob(0, true, Lifecycle.Active, map[]), 0.0, luck)).Some?
  {
    HC.LegalOne(EMPTY, NewJob(0, Lifecycle.Active, map[]));
  }

  lemma ExecFirst(s: Sys, l: Label, rest: seq<Label>)
    requires Inv(s.db)
    ensures Exec(s, [l] + rest) == Exec(Apply(s, l), rest)
  {
    assert ([l] + rest)[1..] == rest;
  }

  lemma ExecOne(s: Sys, l: Label)
    requires Inv(s.db)
    ensures Exec(s, [l]) == Apply(s, l)
  {
    assert [l][1..] == [];
  }

  lemma ExecThree(s: Sys, a: Label, b: Label, c: Label)
    requires Inv(s.db)
    ensures Exec(s, [a, b, c]) == Apply(Apply(Apply(s, a), b), c)
  {
    hide Apply, Exec, Inv;
    assert [a, b, c] == [a] + [b, c] && [b, c] == [b] + [c];
    ExecFirst(s, a, [b, c]);
    ExecFirst(Apply(s, a), b, [c]);
    ExecOne(Apply(Apply(s, a), b), c);
  }

  lemma ExecFive(s: Sys, a: Label, b: Label, c: Label, d: Label, e: Label)
    requires Inv(s.db)
    ensures Exec(s, [a, b, c, d, e]) == Apply(Apply(Apply(Apply(Apply(s, a), b), c), d), e)
  {
    hide Apply, Exec, Inv;
    assert [a, b, c, d, e] == [a] + [b, c, d, e] && [b, c, d, e] == [b] + [c, d, e];
    ExecFirst(s, a, [b, c, d, e]);
    ExecFirst(Apply(s, a), b, [c, d, e]);
    ExecThree(Apply(Apply(s, a), b), c, d, e);
  }
}
