/**
At most one execution: for every request and for every logical operation, over any interleaving of
any number of workers (also several on one request), redeliveries, exceptions and crashes.
*/
module JournalExecution {
  import opened Prelude
  import opened RequestJournal

  predicate Owns(s: Sys, op: OperationId, rid: RequestId) {
    op in s.admitted && s.admitted[op].original == rid
  }

  ghost predicate Ran(s: Sys, rid: RequestId) {
    exists i :: 0 <= i < |s.runs| && s.runs[i].rid == rid
  }

  predicate BeforeStart(pc: PC) {
    pc.AwaitClaim? || pc.Inspect? || pc.WriteRequest? || pc.Gate? || pc.CreateStarted?
  }

  /** A worker inside the operation lock holds that lock; near STARTED it speaks for its operation. */
  ghost predicate WorkerInv(env: Env, s: Sys, wid: WorkerId)
    requires wid in s.workers
  {
    var w := s.workers[wid];
    var logical := env.Logical(w.raw, w.rid, s.cfg);
    && (w.pc.InOperation? || w.pc.Admit? ==>
      logical.Some? && logical.value.0 in s.opLocks && s.opLocks[logical.value.0] == wid)
    && (w.pc.Admit? ==> logical.value.0 !in s.admitted)
    && (BeforeStart(w.pc) && logical.Some? ==>
      Owns(s, logical.value.0, w.rid) || At(s, w.rid).started.Some?)
    && (w.pc.CreateStarted? ==> env.Runnable(w.raw, w.rid, s.cfg))
    && (w.pc.EnterShell? ==>
      && At(s, w.rid).started == Some(Sha(w.raw)) && !Ran(s, w.rid)
      && OperationOwned(env, s, w.rid, w.raw))
  }

  predicate OperationOwned(env: Env, s: Sys, rid: RequestId, raw: Raw) {
    var op := env.OperationOf(raw, rid);
    op.Some? ==> Owns(s, op.value, rid)
  }

  ghost predicate RunsInv(env: Env, s: Sys) {
    && (forall i, j :: 0 <= i < j < |s.runs| ==> s.runs[i].rid != s.runs[j].rid)
    && (forall i :: 0 <= i < |s.runs| ==>
      && At(s, s.runs[i].rid).started == Some(Sha(s.runs[i].raw))
      && OperationOwned(env, s, s.runs[i].rid, s.runs[i].raw))
  }

  ghost predicate OneAtTheShell(s: Sys) {
    forall a, b ::
      (a in s.workers && b in s.workers && a != b && s.workers[a].pc.EnterShell? && s.workers[b].pc.EnterShell?)
      ==> s.workers[a].rid != s.workers[b].rid
  }

  ghost predicate ExecInv(env: Env, s: Sys) {
    && RunsInv(env, s)
    && OneAtTheShell(s)
    && forall wid :: wid in s.workers ==> WorkerInv(env, s, wid)
  }

  /** STARTED markers and admissions are never replaced. */
  ghost predicate Keeps(s: Sys, t: Sys) {
    && (forall rid :: At(s, rid).started.Some? ==> At(t, rid).started == At(s, rid).started)
    && (forall op :: op in s.admitted ==> op in t.admitted && t.admitted[op] == s.admitted[op])
  }

  /** What a step of worker w may do to STARTED, admissions and the run log. */
  ghost predicate Lawful(env: Env, s: Sys, w: Worker, e: Effect) {
    var f := At(s, w.rid);
    var logical := env.Logical(w.raw, w.rid, s.cfg);
    && (e.folder.started == f.started || (w.pc.CreateStarted? && f.started.None? && e.pc.EnterShell?))
    && (e.pc.EnterShell? ==> w.pc.CreateStarted? && f.started.None? && e.folder.started == Some(Sha(w.raw)))
    && (e.admit.Some? ==> w.pc.Admit? && logical.Some?)
    && (e.admit.Some? ==> e.admit.value.0 == logical.value.0 && e.admit.value.1.original == w.rid)
    && (e.lock.Some? ==> w.pc.Arrived? && logical.Some? && e.lock.value == logical.value.0 && e.lock.value !in s.opLocks)
    && (e.enters <==> w.pc.EnterShell?)
    && (e.enters ==> e.pc.Running?)
    && (e.pc.InOperation? ==> w.pc.InOperation? || e.lock.Some?)
    && (e.pc.Admit? ==> w.pc.InOperation? || (w.pc.Admit? && logical.None?))
    && (e.pc.Admit? && logical.Some? ==> logical.value.0 !in s.admitted)
    && (e.pc.CreateStarted? ==> env.Runnable(w.raw, w.rid, s.cfg))
    && (BeforeStart(e.pc) && logical.Some? ==>
      BeforeStart(w.pc) || f.started.Some? || e.admit.Some?)
  }

  lemma StepIsLawful(env: Env, s: Sys, w: Worker, c: Choice)
    requires !w.pc.Done?
    ensures Lawful(env, s, w, Step(env, s, w, c))
  {
  }

  lemma PerformKeeps(env: Env, s: Sys, wid: WorkerId, e: Effect)
    requires wid in s.workers && Lawful(env, s, s.workers[wid], e) && WorkerInv(env, s, wid)
    ensures Keeps(s, Perform(s, wid, e))
  {
  }

  /** Facts about a worker that did not move survive a step that keeps markers and its locks. */
  lemma BystanderInv(env: Env, s: Sys, t: Sys, wid: WorkerId)
    requires wid in s.workers && wid in t.workers && t.workers[wid] == s.workers[wid]
    requires WorkerInv(env, s, wid) && Keeps(s, t) && t.cfg == s.cfg
    requires forall op :: op in s.opLocks && s.opLocks[op] == wid ==> op in t.opLocks && t.opLocks[op] == wid
    requires forall op :: op in t.admitted && op !in s.admitted ==> op !in s.opLocks || s.opLocks[op] != wid
    requires s.workers[wid].pc.EnterShell? && Ran(t, s.workers[wid].rid) ==> Ran(s, s.workers[wid].rid)
    ensures WorkerInv(env, t, wid)
  {
  }

  lemma RunsKept(env: Env, s: Sys, t: Sys)
    requires RunsInv(env, s) && Keeps(s, t) && t.runs == s.runs
    ensures RunsInv(env, t)
    ensures forall rid :: Ran(t, rid) <==> Ran(s, rid)
  {
  }

  lemma RunsGrow(env: Env, s: Sys, wid: WorkerId, e: Effect)
    requires ExecInv(env, s) && wid in s.workers && Lawful(env, s, s.workers[wid], e)
    requires Keeps(s, Perform(s, wid, e))
    ensures RunsInv(env, Perform(s, wid, e))
    ensures forall rid :: Ran(Perform(s, wid, e), rid) ==> Ran(s, rid) || (e.enters && rid == s.workers[wid].rid)
  {
    var t := Perform(s, wid, e);
    var w := s.workers[wid];
    assert WorkerInv(env, s, wid);
    if e.enters {
      forall i, j | 0 <= i < j < |t.runs|
        ensures t.runs[i].rid != t.runs[j].rid
      {
        if j == |s.runs| {
          assert s.runs[i] == t.runs[i];
          assert !Ran(s, w.rid);
        }
      }
      forall rid | Ran(t, rid) && rid != w.rid
        ensures Ran(s, rid)
      {
        var i :| 0 <= i < |t.runs| && t.runs[i].rid == rid;
        assert s.runs[i].rid == rid;
      }
    } else {
      RunsKept(env, s, t);
    }
  }

  lemma PerformKeepsBystander(env: Env, s: Sys, wid: WorkerId, e: Effect, o: WorkerId)
    requires ExecInv(env, s) && wid in s.workers && Lawful(env, s, s.workers[wid], e)
    requires Keeps(s, Perform(s, wid, e))
    requires forall rid :: Ran(Perform(s, wid, e), rid) ==> Ran(s, rid) || (e.enters && rid == s.workers[wid].rid)
    requires o in s.workers && o != wid
    ensures WorkerInv(env, Perform(s, wid, e), o)
  {
    var t := Perform(s, wid, e);
    assert WorkerInv(env, s, o) && WorkerInv(env, s, wid);
    BystanderInv(env, s, t, o);
  }

  lemma PerformKeepsMover(env: Env, s: Sys, wid: WorkerId, e: Effect)
    requires ExecInv(env, s) && wid in s.workers && Lawful(env, s, s.workers[wid], e)
    requires Keeps(s, Perform(s, wid, e))
    requires forall rid :: Ran(Perform(s, wid, e), rid) ==> Ran(s, rid) || (e.enters && rid == s.workers[wid].rid)
    ensures WorkerInv(env, Perform(s, wid, e), wid)
  {
    var t := Perform(s, wid, e);
    var w := s.workers[wid];
    assert WorkerInv(env, s, wid);
    assert e.pc.EnterShell? ==> !Ran(s, w.rid);
  }

  lemma PerformKeepsOneAtTheShell(env: Env, s: Sys, wid: WorkerId, e: Effect)
    requires ExecInv(env, s) && wid in s.workers && Lawful(env, s, s.workers[wid], e)
    ensures OneAtTheShell(Perform(s, wid, e))
  {
    var t := Perform(s, wid, e);
    forall a, b | a in t.workers && b in t.workers && a != b && t.workers[a].pc.EnterShell? && t.workers[b].pc.EnterShell?
      ensures t.workers[a].rid != t.workers[b].rid
    {
      if a == wid || b == wid {
        var o := if a == wid then b else a;
        assert t.workers[o] == s.workers[o] && WorkerInv(env, s, o);
      } else {
        assert t.workers[a] == s.workers[a] && t.workers[b] == s.workers[b];
      }
    }
  }

  lemma PerformKeepsExecInv(env: Env, s: Sys, wid: WorkerId, e: Effect)
    requires ExecInv(env, s) && wid in s.workers && Lawful(env, s, s.workers[wid], e)
    ensures ExecInv(env, Perform(s, wid, e)) && Keeps(s, Perform(s, wid, e))
  {
    var t := Perform(s, wid, e);
    assert WorkerInv(env, s, wid);
    PerformKeeps(env, s, wid, e);
    RunsGrow(env, s, wid, e);
    PerformKeepsOneAtTheShell(env, s, wid, e);
    PerformKeepsMover(env, s, wid, e);
    forall o | o in t.workers && o != wid
      ensures WorkerInv(env, t, o)
    {
      PerformKeepsBystander(env, s, wid, e, o);
    }
  }

  /** A step that leaves files, admissions and runs alone and may only remove or add idle workers. */
  lemma BookkeepingKeepsExecInv(env: Env, s: Sys, t: Sys)
    requires ExecInv(env, s) && Keeps(s, t) && t.admitted == s.admitted && t.runs == s.runs
    requires forall wid :: wid in t.workers && !t.workers[wid].pc.Arrived? ==>
      && wid in s.workers && t.workers[wid] == s.workers[wid] && t.cfg == s.cfg
      && forall op :: op in s.opLocks && s.opLocks[op] == wid ==> op in t.opLocks && t.opLocks[op] == wid
    ensures ExecInv(env, t)
  {
    RunsKept(env, s, t);
    forall wid | wid in t.workers
      ensures WorkerInv(env, t, wid)
    {
      if !t.workers[wid].pc.Arrived? {
        BystanderInv(env, s, t, wid);
      }
    }
  }

  lemma StepKeepsExecInv(env: Env, exclusive: bool, s: Sys, l: Label)
    requires ExecInv(env, s)
    ensures ExecInv(env, Apply(env, exclusive, s, l)) && Keeps(s, Apply(env, exclusive, s, l))
  {
    hide Step, RunsInv, OneAtTheShell, WorkerInv, Lawful;
    if l.Work? && l.wid in s.workers && !s.workers[l.wid].pc.Done? {
      StepIsLawful(env, s, s.workers[l.wid], l.choice);
      PerformKeepsExecInv(env, s, l.wid, Step(env, s, s.workers[l.wid], l.choice));
    } else {
      BookkeepingKeepsExecInv(env, s, Apply(env, exclusive, s, l));
    }
  }

  lemma {:induction false} ReachableExecInv(env: Env, exclusive: bool, s: Sys, labels: seq<Label>)
    requires ExecInv(env, s)
    ensures ExecInv(env, Exec(env, exclusive, s, labels))
    decreases |labels|
  {
    if labels != [] {
      StepKeepsExecInv(env, exclusive, s, labels[0]);
      ReachableExecInv(env, exclusive, Apply(env, exclusive, s, labels[0]), labels[1..]);
    }
  }

  /**
  In every reachable state a request ID entered run_shell at most once, an operation ID entered it
  at most once under any number of request IDs, and only through the request its admission names.
  */
  lemma AtMostOneExecution(env: Env, exclusive: bool, cfg: ConfigId, labels: seq<Label>)
    ensures var s := Exec(env, exclusive, Initial(cfg), labels);
      && (forall i, j :: 0 <= i < j < |s.runs| ==> s.runs[i].rid != s.runs[j].rid)
      && (forall i, j :: 0 <= i < j < |s.runs| && env.OperationOf(s.runs[i].raw, s.runs[i].rid).Some? ==>
        env.OperationOf(s.runs[i].raw, s.runs[i].rid) != env.OperationOf(s.runs[j].raw, s.runs[j].rid))
      && (forall i :: 0 <= i < |s.runs| && env.OperationOf(s.runs[i].raw, s.runs[i].rid).Some? ==>
        Owns(s, env.OperationOf(s.runs[i].raw, s.runs[i].rid).value, s.runs[i].rid))
  {
    ReachableExecInv(env, exclusive, Initial(cfg), labels);
    var s := Exec(env, exclusive, Initial(cfg), labels);
    forall i, j | 0 <= i < j < |s.runs| && env.OperationOf(s.runs[i].raw, s.runs[i].rid).Some?
      ensures env.OperationOf(s.runs[i].raw, s.runs[i].rid) != env.OperationOf(s.runs[j].raw, s.runs[j].rid)
    {
      assert OperationOwned(env, s, s.runs[i].rid, s.runs[i].raw);
      assert OperationOwned(env, s, s.runs[j].rid, s.runs[j].raw);
    }
  }

  /** Once written, an admission and a STARTED marker are the same in every later state. */
  lemma {:induction false} WriteOnce(env: Env, exclusive: bool, s: Sys, labels: seq<Label>)
    requires ExecInv(env, s)
    ensures Keeps(s, Exec(env, exclusive, s, labels))
    decreases |labels|
  {
    if labels != [] {
      StepKeepsExecInv(env, exclusive, s, labels[0]);
      WriteOnce(env, exclusive, Apply(env, exclusive, s, labels[0]), labels[1..]);
    }
  }
}
