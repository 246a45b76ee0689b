/**
What receipts mean, under the daemon's rule of one worker per request name: FINISHED only beside the
matching result, terminal pairs frozen, "completed" backed by a drained run or by one verified hop to
such a receipt, and an interrupted run never reported as anything but indeterminate.
*/
module JournalReceipts {
  import opened Prelude
  import opened RequestJournal
  import opened JournalExecution

  /** The receipt a replay points at: a finished, started, non-replayed completion. */
  ghost predicate ReplaySource(s: Sys, rid: RequestId, proof: ReplayProof) {
    var g := At(s, proof.source);
    && proof.source != rid
    && g.result.Some?
    && var x := g.result.value;
      && proof.sourceSha == ReceiptSha(x)
      && x.status == Completed && x.replay.None? && x.id == proof.source
      && g.finished == Some(Mark(Completed, x.sha)) && g.started == Some(x.sha)
      && proof.source in s.drained
  }

  ghost predicate ReceiptOk(s: Sys, rid: RequestId, f: Folder, r: Receipt) {
    && r.id == rid
    && (r.status == Completed && r.replay.None? ==> f.started == Some(r.sha) && rid in s.drained)
    && (r.status == Rejected ==> f.started.None?)
    && (r.replay.Some? ==> f.started.None?)
    && (r.status == Completed && r.replay.Some? ==> ReplaySource(s, rid, r.replay.value))
  }

  ghost predicate FolderInv(s: Sys, rid: RequestId, f: Folder) {
    && (f.finished.Some? ==>
      && f.result.Some? && f.finished == Some(Mark(f.result.value.status, f.result.value.sha))
      && ReceiptOk(s, rid, f, f.result.value) && !f.active)
    && (f.finished.Some? && f.request.Some? ==> f.finished.value.sha == Sha(f.request.value))
    && (f.started.Some? ==> f.request.Some? && f.started == Some(Sha(f.request.value)))
    && (f.active ==> f.started.Some?)
  }

  ghost predicate PointInv(s: Sys, rid: RequestId, raw: Raw, pc: PC, f: Folder) {
    && (pc.WriteRequest? ==> f.started.None? && f.finished.None?)
    && (pc.Gate? || pc.CreateStarted? ==> f.started.None? && f.finished.None? && f.request == Some(raw))
    && (pc.EnterShell? || pc.Running? ==>
      f.finished.None? && f.started == Some(Sha(raw)) && f.request == Some(raw))
    && (pc.Running? ==> Ran(s, rid))
    && (pc.ClearActive? ==>
      && f.finished.None? && f.started == Some(Sha(raw))
      && pc.receipt.sha == Sha(raw) && pc.receipt.status != Rejected && pc.receipt.replay.None?
      && ReceiptOk(s, rid, f, pc.receipt))
    && (pc.PutRequest? ==>
      f.finished.None? && f.started.None? && pc.receipt == Plain(rid, raw, Indeterminate))
    && (pc.PutResult? || pc.PutFinished? ==>
      && f.finished.None? && !f.active && pc.receipt.sha == Sha(raw) && ReceiptOk(s, rid, f, pc.receipt)
      && (f.request.Some? ==> f.request.value == raw))
    && (pc.PutFinished? ==> f.result == Some(pc.receipt))
  }

  ghost predicate Solo(s: Sys) {
    forall a, b :: (a in s.workers && b in s.workers && a != b) ==> s.workers[a].rid != s.workers[b].rid
  }

  ghost predicate ReceiptInv(s: Sys) {
    && Solo(s)
    && (forall rid :: FolderInv(s, rid, At(s, rid)))
    && (forall wid :: wid in s.workers ==>
      var w := s.workers[wid]; PointInv(s, w.rid, w.raw, w.pc, At(s, w.rid)))
    && (forall rid :: rid in s.drained ==> Ran(s, rid))
  }

  /** A terminal pair, and the STARTED marker beside it, never change. */
  ghost predicate Frozen(f: Folder, g: Folder) {
    f.finished.Some? ==> g.finished == f.finished && g.result == f.result && g.started == f.started
  }

  ghost predicate Later(s: Sys, t: Sys) {
    && (forall rid :: Frozen(At(s, rid), At(t, rid)))
    && s.drained <= t.drained
    && (forall rid :: Ran(s, rid) ==> Ran(t, rid))
  }

  lemma ReceiptStaysOk(s: Sys, t: Sys, rid: RequestId, f: Folder, r: Receipt)
    requires ReceiptOk(s, rid, f, r) && Later(s, t)
    ensures ReceiptOk(t, rid, f, r)
  {
    if r.replay.Some? {
      assert Frozen(At(s, r.replay.value.source), At(t, r.replay.value.source));
    }
  }

  lemma VerifiedSource(env: Env, s: Sys, prior: RequestId, op: OperationId, digest: Digest, rid: RequestId)
    requires ReceiptInv(s) && prior != rid
    requires VerifiedOriginal(env, s, prior, op, digest, None).Some?
    ensures var x := VerifiedOriginal(env, s, prior, op, digest, None).value;
      x.status == Completed ==> ReplaySource(s, rid, ReplayProof(op, prior, ReceiptSha(x)))
  {
    assert FolderInv(s, prior, At(s, prior));
  }

  lemma ReplyOk(env: Env, s: Sys, rid: RequestId, raw: Raw, op: OperationId, a: Admission, f: Folder)
    requires ReceiptInv(s) && a.original != rid && f.started.None?
    ensures ReceiptOk(s, rid, f, ReplyReceipt(env, s, rid, raw, op, a))
    ensures ReplyReceipt(env, s, rid, raw, op, a).sha == Sha(raw)
  {
    if VerifiedOriginal(env, s, a.original, op, a.digest, None).Some? {
      VerifiedSource(env, s, a.original, op, a.digest, rid);
    }
  }

  /** The decision taken under the operation lock. */
  lemma OperationPointOk(env: Env, s: Sys, rid: RequestId, raw: Raw, op: OperationId, digest: Digest)
    requires ReceiptInv(s)
    ensures PointInv(s, rid, raw, OperationPoint(env, s, rid, raw, op, digest), At(s, rid))
  {
    var f := At(s, rid);
    assert FolderInv(s, rid, f);
    if op in s.admitted && s.admitted[op].original != rid && f.started.None? {
      ReplyOk(env, s, rid, raw, op, s.admitted[op], f);
    }
  }

  lemma ClaimedPointOk(env: Env, s: Sys, rid: RequestId, raw: Raw)
    requires ReceiptInv(s)
    ensures PointInv(s, rid, raw, ClaimedPoint(env, At(s, rid), rid, raw), At(s, rid))
  {
    assert FolderInv(s, rid, At(s, rid));
  }

  /** What a step does: the folder and position it leaves fit together, in the state with its run and drain. */
  ghost predicate Fits(s: Sys, w: Worker, e: Effect) {
    var t := s.(drained := if e.drains then s.drained + {w.rid} else s.drained,
                runs := if e.enters then s.runs + [Run(w.rid, w.raw)] else s.runs);
    && Frozen(At(s, w.rid), e.folder)
    && FolderInv(t, w.rid, e.folder)
    && PointInv(t, w.rid, w.raw, e.pc, e.folder)
    && (e.drains ==> Ran(s, w.rid))
  }

  /** From the shell on: the steps that depend on nothing outside the folder. */
  predicate Closing(pc: PC) {
    pc.Running? || pc.ClearActive? || pc.PutRequest? || pc.PutResult? || pc.PutFinished?
  }

  lemma ClosingReceipts(env: Env, s: Sys, w: Worker, c: Choice)
    requires FolderInv(s, w.rid, At(s, w.rid)) && PointInv(s, w.rid, w.raw, w.pc, At(s, w.rid)) && Closing(w.pc)
    ensures Fits(s, w, Step(env, s, w, c))
  {
    hide OperationPoint, ClaimedPoint, Env.Logical;
  }

  /** The new folder and position of the worker that moved, and what may not have changed. */
  lemma StepReceipts(env: Env, s: Sys, wid: WorkerId, c: Choice)
    requires ReceiptInv(s) && wid in s.workers && !s.workers[wid].pc.Done?
    ensures Fits(s, s.workers[wid], Step(env, s, s.workers[wid], c))
  {
    var w := s.workers[wid];
    assert FolderInv(s, w.rid, At(s, w.rid)) && PointInv(s, w.rid, w.raw, w.pc, At(s, w.rid));
    hide ReceiptInv, OperationPoint, ClaimedPoint, Env.Logical;
    if Closing(w.pc) {
      ClosingReceipts(env, s, w, c);
    } else if w.pc.InOperation? {
      var logical := env.Logical(w.raw, w.rid, s.cfg);
      if logical.Some? {
        OperationPointOk(env, s, w.rid, w.raw, logical.value.0, logical.value.1);
      }
    } else if w.pc.Inspect? {
      ClaimedPointOk(env, s, w.rid, w.raw);
    } else if w.pc.EnterShell? {
      assert (s.runs + [Run(w.rid, w.raw)])[|s.runs|].rid == w.rid;
    }
  }

  lemma LaterAfter(env: Env, s: Sys, wid: WorkerId, c: Choice)
    requires ReceiptInv(s) && wid in s.workers && !s.workers[wid].pc.Done?
    ensures Later(s, Perform(s, wid, Step(env, s, s.workers[wid], c)))
  {
    StepReceipts(env, s, wid, c);
    var t := Perform(s, wid, Step(env, s, s.workers[wid], c));
    forall rid | Ran(s, rid)
      ensures Ran(t, rid)
    {
      var i :| 0 <= i < |s.runs| && s.runs[i].rid == rid;
      assert t.runs[i].rid == rid;
    }
  }

  lemma FolderInvLater(s: Sys, t: Sys, rid: RequestId, f: Folder)
    requires FolderInv(s, rid, f) && Later(s, t)
    ensures FolderInv(t, rid, f)
  {
    if f.finished.Some? {
      ReceiptStaysOk(s, t, rid, f, f.result.value);
    }
  }

  lemma PointInvLater(s: Sys, t: Sys, rid: RequestId, raw: Raw, pc: PC, f: Folder)
    requires PointInv(s, rid, raw, pc, f) && Later(s, t)
    ensures PointInv(t, rid, raw, pc, f)
  {
    if pc.ClearActive? || pc.PutResult? || pc.PutFinished? {
      ReceiptStaysOk(s, t, rid, f, pc.receipt);
    }
  }

  lemma MoverReceipts(env: Env, s: Sys, wid: WorkerId, c: Choice)
    requires ReceiptInv(s) && wid in s.workers && !s.workers[wid].pc.Done?
    ensures var w := s.workers[wid];
      var t := Perform(s, wid, Step(env, s, w, c));
      && FolderInv(t, w.rid, At(t, w.rid))
      && PointInv(t, w.rid, w.raw, t.workers[wid].pc, At(t, w.rid))
  {
    var w := s.workers[wid];
    var e := Step(env, s, w, c);
    var t := Perform(s, wid, e);
    var u := s.(drained := t.drained, runs := t.runs);
    StepReceipts(env, s, wid, c);
    LaterAfter(env, s, wid, c);
    assert Later(u, t) by {
      forall rid
        ensures Frozen(At(u, rid), At(t, rid))
      {
        assert At(u, rid) == At(s, rid);
        assert Frozen(At(s, rid), At(t, rid));
      }
    }
    FolderInvLater(u, t, w.rid, e.folder);
    PointInvLater(u, t, w.rid, w.raw, e.pc, e.folder);
  }

  lemma MoveKeepsReceiptInv(env: Env, s: Sys, wid: WorkerId, c: Choice)
    requires ReceiptInv(s) && wid in s.workers && !s.workers[wid].pc.Done?
    ensures ReceiptInv(Perform(s, wid, Step(env, s, s.workers[wid], c)))
  {
    var w := s.workers[wid];
    var t := Perform(s, wid, Step(env, s, w, c));
    LaterAfter(env, s, wid, c);
    MoverReceipts(env, s, wid, c);
    forall rid
      ensures FolderInv(t, rid, At(t, rid))
    {
      if rid != w.rid {
        assert At(t, rid) == At(s, rid);
        FolderInvLater(s, t, rid, At(s, rid));
      }
    }
    forall o | o in t.workers && o != wid
      ensures PointInv(t, t.workers[o].rid, t.workers[o].raw, t.workers[o].pc, At(t, t.workers[o].rid))
    {
      var v := s.workers[o];
      assert t.workers[o] == v && At(t, v.rid) == At(s, v.rid);
      PointInvLater(s, t, v.rid, v.raw, v.pc, At(s, v.rid));
    }
    forall rid | rid in t.drained
      ensures Ran(t, rid)
    {
      StepReceipts(env, s, wid, c);
      assert Ran(s, rid);
    }
  }

  /** Steps that touch no result, FINISHED or STARTED file and only drop or start workers. */
  lemma BookkeepingKeepsReceiptInv(s: Sys, t: Sys)
    requires ReceiptInv(s) && Solo(t)
    requires t.drained == s.drained && t.runs == s.runs
    requires forall rid :: At(t, rid) == At(s, rid) || (t.workers == map[] && At(t, rid) == At(s, rid).(active := false))
    requires forall wid :: wid in t.workers && !t.workers[wid].pc.Arrived? ==> wid in s.workers && t.workers[wid] == s.workers[wid]
    ensures ReceiptInv(t) && Later(s, t)
  {
    assert Later(s, t);
    forall rid
      ensures FolderInv(t, rid, At(t, rid))
    {
      assert FolderInv(s, rid, At(s, rid));
      FolderInvLater(s, t, rid, At(s, rid));
    }
    forall wid | wid in t.workers
      ensures PointInv(t, t.workers[wid].rid, t.workers[wid].raw, t.workers[wid].pc, At(t, t.workers[wid].rid))
    {
      var w := t.workers[wid];
      if !w.pc.Arrived? {
        assert At(t, w.rid) == At(s, w.rid);
        PointInvLater(s, t, w.rid, w.raw, w.pc, At(s, w.rid));
      }
    }
  }

  lemma SweepKeepsReceiptInv(env: Env, s: Sys, rid: RequestId)
    requires ReceiptInv(s)
    ensures ReceiptInv(Apply(env, true, s, Sweep(rid))) && Later(s, Apply(env, true, s, Sweep(rid)))
  {
    hide FolderInv, PointInv;
    BookkeepingKeepsReceiptInv(s, Apply(env, true, s, Sweep(rid)));
  }

  lemma LaunchKeepsReceiptInv(env: Env, s: Sys, l: Label)
    requires ReceiptInv(s) && l.Launch?
    ensures ReceiptInv(Apply(env, true, s, l)) && Later(s, Apply(env, true, s, l))
  {
    hide FolderInv, PointInv;
    BookkeepingKeepsReceiptInv(s, Apply(env, true, s, l));
  }

  /** Some or all workers go; no file is touched. */
  lemma LeavingKeepsReceiptInv(s: Sys, t: Sys)
    requires ReceiptInv(s) && t.folders == s.folders && t.drained == s.drained && t.runs == s.runs
    requires forall wid :: wid in t.workers ==> wid in s.workers && t.workers[wid] == s.workers[wid]
    ensures ReceiptInv(t) && Later(s, t)
  {
    hide FolderInv, PointInv;
    BookkeepingKeepsReceiptInv(s, t);
  }

  lemma ApplyKeepsReceiptInv(env: Env, s: Sys, l: Label)
    requires ReceiptInv(s)
    ensures ReceiptInv(Apply(env, true, s, l)) && Later(s, Apply(env, true, s, l))
  {
    hide Step, ReceiptInv, Later, Perform;
    if l.Work? && l.wid in s.workers && !s.workers[l.wid].pc.Done? {
      MoveKeepsReceiptInv(env, s, l.wid, l.choice);
      LaterAfter(env, s, l.wid, l.choice);
    } else if l.Sweep? {
      SweepKeepsReceiptInv(env, s, l.rid);
    } else if l.Launch? {
      LaunchKeepsReceiptInv(env, s, l);
    } else {
      LeavingKeepsReceiptInv(s, Apply(env, true, s, l));
    }
  }

  lemma {:induction false} ReachableReceiptInv(env: Env, s: Sys, labels: seq<Label>)
    requires ReceiptInv(s)
    ensures ReceiptInv(Exec(env, true, s, labels)) && Later(s, Exec(env, true, s, labels))
    decreases |labels|
  {
    if labels != [] {
      var t := Apply(env, true, s, labels[0]);
      ApplyKeepsReceiptInv(env, s, labels[0]);
      ReachableReceiptInv(env, t, labels[1..]);
      var u := Exec(env, true, s, labels);
      forall rid
        ensures Frozen(At(s, rid), At(u, rid))
      {
        assert Frozen(At(s, rid), At(t, rid)) && Frozen(At(t, rid), At(u, rid));
      }
    }
  }

  lemma InitialReceiptInv(cfg: ConfigId)
    ensures ReceiptInv(Initial(cfg))
  {
  }

  /** run_shell was entered for rid exactly once, with these bytes. */
  ghost predicate RanOnceAs(s: Sys, rid: RequestId, raw: Raw) {
    exists i {:trigger s.runs[i]} ::
      && 0 <= i < |s.runs| && s.runs[i] == Run(rid, raw)
      && forall j :: 0 <= j < |s.runs| && s.runs[j].rid == rid ==> j == i
  }

  lemma StartedRunIsUnique(env: Env, s: Sys, rid: RequestId)
    requires ExecInv(env, s) && Ran(s, rid) && At(s, rid).started.Some?
    ensures RanOnceAs(s, rid, At(s, rid).started.value.of)
  {
    var i :| 0 <= i < |s.runs| && s.runs[i].rid == rid;
    assert At(s, s.runs[i].rid).started == Some(Sha(s.runs[i].raw));
    assert forall j :: 0 <= j < |s.runs| && s.runs[j].rid == rid ==> !(j < i) && !(i < j);
    assert s.runs[i] == Run(rid, At(s, rid).started.value.of);
  }

  /**
  Reachable receipts.  FINISHED stands only beside a result of the same status and hash; a completed
  result either belongs to a request whose own bytes ran exactly once and returned drained, or is a
  replay, without STARTED, of a different request's non-replayed completion.
  */
  lemma FinishedReceipts(env: Env, cfg: ConfigId, labels: seq<Label>, rid: RequestId)
    requires At(Exec(env, true, Initial(cfg), labels), rid).finished.Some?
    ensures var s := Exec(env, true, Initial(cfg), labels);
      var f := At(s, rid);
      && f.result.Some? && !f.active
      && f.result.value.id == rid
      && f.finished.value == Mark(f.result.value.status, f.result.value.sha)
      && (f.result.value.status == Completed ==>
        if f.result.value.replay.Some? then f.started.None? && ReplaySource(s, rid, f.result.value.replay.value)
        else
          f.started == Some(f.result.value.sha) && rid in s.drained && RanOnceAs(s, rid, f.result.value.sha.of))
  {
    InitialReceiptInv(cfg);
    ReachableReceiptInv(env, Initial(cfg), labels);
    ReachableExecInv(env, true, Initial(cfg), labels);
    var s := Exec(env, true, Initial(cfg), labels);
    var f := At(s, rid);
    assert FolderInv(s, rid, f);
    if f.result.value.status == Completed && f.result.value.replay.None? {
      assert Ran(s, rid);
      StartedRunIsUnique(env, s, rid);
    }
  }

  /** Whatever is delivered, redelivered or reused afterwards, a terminal pair stays as it is. */
  lemma TerminalPairFrozen(env: Env, cfg: ConfigId, before: seq<Label>, after: seq<Label>, rid: RequestId)
    requires At(Exec(env, true, Initial(cfg), before), rid).finished.Some?
    ensures var f := At(Exec(env, true, Initial(cfg), before), rid);
      var g := At(Exec(env, true, Initial(cfg), before + after), rid);
      g.finished == f.finished && g.result == f.result && g.started == f.started
  {
    InitialReceiptInv(cfg);
    ReachableReceiptInv(env, Initial(cfg), before);
    var s := Exec(env, true, Initial(cfg), before);
    ReachableReceiptInv(env, s, after);
    ExecAppend(env, true, Initial(cfg), before, after);
    assert Frozen(At(s, rid), At(Exec(env, true, s, after), rid));
  }

  // ---------------------------------------------------------------- what a replay may stand in for

  /** Under some loaded configuration these bytes asked for this operation with this digest. */
  ghost predicate AskedFor(env: Env, rid: RequestId, raw: Raw, op: OperationId, digest: Digest) {
    exists cfg: ConfigId :: env.Logical(raw, rid, cfg) == Some((op, digest))
  }

  /** A replay names an admitted operation, that operation's original, and answers the same digest. */
  ghost predicate SameOperation(env: Env, s: Sys, rid: RequestId, r: Receipt) {
    r.replay.Some? ==>
      var proof := r.replay.value;
      && Owns(s, proof.operation, proof.source) && proof.source != rid
      && AskedFor(env, rid, r.sha.of, proof.operation, s.admitted[proof.operation].digest)
  }

  ghost predicate PointReplay(env: Env, s: Sys, rid: RequestId, pc: PC) {
    match pc
    case ClearActive(r) => SameOperation(env, s, rid, r)
    case PutRequest(r) => SameOperation(env, s, rid, r)
    case PutResult(r) => SameOperation(env, s, rid, r)
    case PutFinished(r) => SameOperation(env, s, rid, r)
    case _ => true
  }

  ghost predicate ReplayInv(env: Env, s: Sys) {
    && (forall rid :: At(s, rid).result.Some? ==> SameOperation(env, s, rid, At(s, rid).result.value))
    && (forall wid :: wid in s.workers ==> PointReplay(env, s, s.workers[wid].rid, s.workers[wid].pc))
  }

  lemma StepReplay(env: Env, s: Sys, wid: WorkerId, c: Choice)
    requires ReplayInv(env, s) && wid in s.workers
    ensures var w := s.workers[wid];
      var e := Step(env, s, w, c);
      && PointReplay(env, s, w.rid, e.pc)
      && (e.folder.result.Some? ==> SameOperation(env, s, w.rid, e.folder.result.value))
  {
    var w := s.workers[wid];
    assert PointReplay(env, s, w.rid, w.pc);
    if w.pc.InOperation? && env.Logical(w.raw, w.rid, s.cfg).Some? {
      var (op, digest) := env.Logical(w.raw, w.rid, s.cfg).value;
      assert AskedFor(env, w.rid, w.raw, op, digest);
    }
  }

  lemma ApplyKeepsReplayInv(env: Env, exclusive: bool, s: Sys, l: Label)
    requires ReplayInv(env, s) && Keeps(s, Apply(env, exclusive, s, l))
    ensures ReplayInv(env, Apply(env, exclusive, s, l))
  {
    var t := Apply(env, exclusive, s, l);
    if l.Work? && l.wid in s.workers {
      StepReplay(env, s, l.wid, l.choice);
    }
    hide Step, AskedFor;
    forall rid | At(t, rid).result.Some?
      ensures SameOperation(env, t, rid, At(t, rid).result.value)
    {
      assert SameOperation(env, s, rid, At(t, rid).result.value);
    }
    forall wid | wid in t.workers
      ensures PointReplay(env, t, t.workers[wid].rid, t.workers[wid].pc)
    {
      assert PointReplay(env, s, t.workers[wid].rid, t.workers[wid].pc);
    }
  }

  lemma {:induction false} ReachableReplayInv(env: Env, exclusive: bool, s: Sys, labels: seq<Label>)
    requires ExecInv(env, s) && ReplayInv(env, s)
    ensures ReplayInv(env, Exec(env, exclusive, s, labels))
    decreases |labels|
  {
    if labels != [] {
      StepKeepsExecInv(env, exclusive, s, labels[0]);
      ApplyKeepsReplayInv(env, exclusive, s, labels[0]);
      ReachableReplayInv(env, exclusive, Apply(env, exclusive, s, labels[0]), labels[1..]);
    }
  }

  /**
  A stored replay is never of a foreign operation: the operation it names is admitted, its source is
  that operation's one original, and the request asked for the operation with the admitted digest.
  */
  lemma ReplaysStayInTheirOperation(env: Env, exclusive: bool, cfg: ConfigId, labels: seq<Label>, rid: RequestId)
    requires var f := At(Exec(env, exclusive, Initial(cfg), labels), rid); f.result.Some? && f.result.value.replay.Some?
    ensures var s := Exec(env, exclusive, Initial(cfg), labels);
      var r := At(s, rid).result.value;
      && Owns(s, r.replay.value.operation, r.replay.value.source) && r.replay.value.source != rid
      && AskedFor(env, rid, r.sha.of, r.replay.value.operation, s.admitted[r.replay.value.operation].digest)
  {
    ReachableReplayInv(env, exclusive, Initial(cfg), labels);
    var s := Exec(env, exclusive, Initial(cfg), labels);
    assert SameOperation(env, s, rid, At(s, rid).result.value);
  }

  // ---------------------------------------------------------------- interrupted runs

  predicate SafeAfterCrash(pc: PC) {
    match pc
    case WriteRequest => false
    case Gate => false
    case CreateStarted => false
    case EnterShell => false
    case Running => false
    case PutRequest(_) => false
    case ClearActive(r) => r.status == Indeterminate
    case PutResult(r) => r.status == Indeterminate
    case PutFinished(r) => r.status == Indeterminate
    case _ => true
  }

  /** STARTED is on disk and nobody can any longer report the run's own outcome. */
  ghost predicate Stranded(s: Sys, rid: RequestId) {
    && At(s, rid).started.Some?
    && (At(s, rid).finished.Some? ==> At(s, rid).finished.value.status == Indeterminate)
    && forall wid :: wid in s.workers && s.workers[wid].rid == rid ==> SafeAfterCrash(s.workers[wid].pc)
  }

  lemma StrandedStep(env: Env, s: Sys, w: Worker, c: Choice)
    requires ReceiptInv(s) && !w.pc.Done? && SafeAfterCrash(w.pc)
    requires At(s, w.rid).started.Some?
    requires At(s, w.rid).finished.Some? ==> At(s, w.rid).finished.value.status == Indeterminate
    ensures var e := Step(env, s, w, c);
      && SafeAfterCrash(e.pc) && e.folder.started == At(s, w.rid).started && !e.enters
      && (e.folder.finished.Some? ==> e.folder.finished.value.status == Indeterminate)
  {
    assert FolderInv(s, w.rid, At(s, w.rid));
  }

  /** Whatever ran meanwhile was not this request. */
  predicate NoNewRun(s: Sys, t: Sys, rid: RequestId) {
    s.runs <= t.runs && forall i :: |s.runs| <= i < |t.runs| ==> t.runs[i].rid != rid
  }

  lemma ApplyKeepsStranded(env: Env, s: Sys, l: Label, rid: RequestId)
    requires ReceiptInv(s) && Stranded(s, rid)
    ensures Stranded(Apply(env, true, s, l), rid) && NoNewRun(s, Apply(env, true, s, l), rid)
  {
    if l.Work? && l.wid in s.workers && !s.workers[l.wid].pc.Done? {
      var w := s.workers[l.wid];
      if w.rid == rid {
        StrandedStep(env, s, w, l.choice);
      }
    }
  }

  lemma NoNewRunTransitive(s: Sys, u: Sys, t: Sys, rid: RequestId)
    requires NoNewRun(s, u, rid) && NoNewRun(u, t, rid)
    ensures NoNewRun(s, t, rid)
  {
    forall i | |s.runs| <= i < |t.runs|
      ensures t.runs[i].rid != rid
    {
      assert i < |u.runs| ==> t.runs[i] == u.runs[i];
    }
  }

  lemma {:induction false} StrandedForever(env: Env, s: Sys, labels: seq<Label>, rid: RequestId)
    requires ReceiptInv(s) && Stranded(s, rid)
    ensures Stranded(Exec(env, true, s, labels), rid) && NoNewRun(s, Exec(env, true, s, labels), rid)
    decreases |labels|
  {
    if labels != [] {
      var u := Apply(env, true, s, labels[0]);
      ApplyKeepsReceiptInv(env, s, labels[0]);
      ApplyKeepsStranded(env, s, labels[0], rid);
      StrandedForever(env, u, labels[1..], rid);
      hide *;
      NoNewRunTransitive(s, u, Exec(env, true, u, labels[1..]), rid);
    }
  }

  /**
  A crash between STARTED and FINISHED can only ever end in an indeterminate receipt, and the request
  does not run again.
  */
  lemma InterruptedEndsIndeterminate(
    env: Env, cfg: ConfigId, before: seq<Label>, restart: ConfigId, after: seq<Label>, rid: RequestId)
    requires var s := Exec(env, true, Initial(cfg), before); At(s, rid).started.Some? && At(s, rid).finished.None?
    ensures var t := Exec(env, true, Initial(cfg), before + [Crash(restart)] + after);
      && At(t, rid).started.Some? && NoNewRun(Exec(env, true, Initial(cfg), before), t, rid)
      && (At(t, rid).finished.Some? ==>
        && At(t, rid).finished.value.status == Indeterminate
        && At(t, rid).result.Some? && At(t, rid).result.value.status == Indeterminate)
  {
    var s := Exec(env, true, Initial(cfg), before);
    InitialReceiptInv(cfg);
    ReachableReceiptInv(env, Initial(cfg), before);
    var u := Apply(env, true, s, Crash(restart));
    ApplyKeepsReceiptInv(env, s, Crash(restart));
    assert Stranded(u, rid);
    StrandedForever(env, u, after, rid);
    ReachableReceiptInv(env, u, after);
    ExecAppend(env, true, Initial(cfg), before, [Crash(restart)]);
    ExecAppend(env, true, Initial(cfg), before + [Crash(restart)], after);
    assert Exec(env, true, s, [Crash(restart)]) == u;
    var t := Exec(env, true, u, after);
    assert FolderInv(t, rid, At(t, rid));
  }
}
