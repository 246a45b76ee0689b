/**
process_one and the per-request path as the straight-line program they are: one call, alone on the
journal.  Every durable write is matched by the transition of RequestJournal that stands for it, so a
call is one run of that machine and inherits its invariants.
*/
module BridgeProcess {
  import opened Prelude
  import opened RequestJournal
  import opened JournalExecution
  import opened JournalReceipts

  /** The later trace continues the earlier one by transitions of the worker itself: no crash, no abort. */
  predicate Worked(before: seq<Label>, after: seq<Label>) {
    before <= after && forall i :: |before| <= i < |after| ==> after[i].Work? && after[i].wid == 0
  }

  // ---------------------------------------------------------------- what one call does

  /** The folder it leaves, and whether it entered the shell and came back drained. */
  datatype Outcome = Outcome(folder: Folder, ran: bool, drained: bool)

  function Same(f: Folder): Outcome {
    Outcome(f, false, false)
  }

  function Recorded(f: Folder, r: Receipt): Folder {
    f.(result := Some(r), finished := Some(Mark(r.status, r.sha)))
  }

  function RunStatus(choice: Choice): Status {
    if choice.drained then Completed else Indeterminate
  }

  function RunOutcome(rid: RequestId, raw: Raw, choice: Choice, f: Folder): Outcome {
    Outcome(Recorded(f.(active := false), Plain(rid, raw, RunStatus(choice))), true, choice.drained)
  }

  function StartOutcome(rid: RequestId, raw: Raw, choice: Choice, f: Folder): Outcome {
    if f.started.Some? then Same(f) else RunOutcome(rid, raw, choice, f.(started := Some(Sha(raw))))
  }

  function GateOutcome(env: Env, cfg: ConfigId, rid: RequestId, raw: Raw, choice: Choice, f: Folder): Outcome {
    if !env.Runnable(raw, rid, cfg) || !choice.approved then
      Outcome(Recorded(f, Plain(rid, raw, Rejected)), false, false)
    else StartOutcome(rid, raw, choice, f)
  }

  function ClaimedOutcome(env: Env, cfg: ConfigId, rid: RequestId, raw: Raw, choice: Choice, f: Folder): Outcome {
    if env.oversize(raw) || (BoundSha(f).Some? && BoundSha(f).value != Sha(raw)) then Same(f)
    else if f.finished.Some? && f.result.Some? then Same(f)
    else if f.started.Some? && f.finished.None? then
      Outcome(Recorded(f.(active := false), Plain(rid, raw, Indeterminate)), false, false)
    else GateOutcome(env, cfg, rid, raw, choice, f.(request := Some(raw)))
  }

  function ReplyOutcome(
    env: Env, cfg: ConfigId, rid: RequestId, raw: Raw, receipt: Receipt, choice: Choice, f: Folder): Outcome
  {
    if f.result.Some? || f.finished.Some? then Same(f)
    else if f.started.Some? then ClaimedOutcome(env, cfg, rid, raw, choice, f)
    else if f.active || (f.request.Some? && f.request.value != raw) then Same(f)
    else Outcome(Recorded(f, receipt), false, false)
  }

  /** Nothing is run: at most "indeterminate" is recorded, beside the bytes. */
  function OriginalOutcome(env: Env, cfg: ConfigId, rid: RequestId, raw: Raw, f: Folder): Outcome {
    if f.result.Some? || f.finished.Some? then Same(f)
    else if f.started.Some? then
      if env.oversize(raw) || f.started.value != Sha(raw) then Same(f)
      else Outcome(Recorded(f.(active := false), Plain(rid, raw, Indeterminate)), false, false)
    else if f.active || (f.request.Some? && f.request.value != raw) then Same(f)
    else Outcome(Recorded(f.(request := Some(raw)), Plain(rid, raw, Indeterminate)), false, false)
  }

  /** What a whole call does on a journal in this state. */
  function CallOutcome(env: Env, s: Sys, rid: RequestId, raw: Raw, choice: Choice): Outcome {
    var f := At(s, rid);
    match env.Logical(raw, rid, s.cfg)
    case None => ClaimedOutcome(env, s.cfg, rid, raw, choice, f)
    case Some((op, digest)) =>
      if op !in s.admitted then ClaimedOutcome(env, s.cfg, rid, raw, choice, f)
      else
        var a := s.admitted[op];
        if a.digest == digest then
          if a.original == rid then OriginalOutcome(env, s.cfg, rid, raw, f)
          else ReplyOutcome(env, s.cfg, rid, raw, ReplyReceipt(env, s, rid, raw, op, a), choice, f)
        else if a.original == rid then Same(f)
        else ReplyOutcome(env, s.cfg, rid, raw, Plain(rid, raw, Rejected), choice, f)
  }

  /** The admissions afterwards. */
  function AdmittedAfter(env: Env, s: Sys, rid: RequestId, raw: Raw): map<OperationId, Admission> {
    match env.Logical(raw, rid, s.cfg)
    case None => s.admitted
    case Some((op, digest)) => if op in s.admitted then s.admitted else s.admitted[op := Admission(digest, rid)]
  }

  /** The journal after a call that was alone on it. */
  function AfterCall(env: Env, s: Sys, rid: RequestId, raw: Raw, choice: Choice): Sys {
    var o := CallOutcome(env, s, rid, raw, choice);
    s.(folders := s.folders[rid := o.folder], admitted := AdmittedAfter(env, s, rid, raw),
       runs := if o.ran then s.runs + [Run(rid, raw)] else s.runs,
       drained := if o.drained then s.drained + {rid} else s.drained)
  }

  lemma SameJournal(env: Env, s: Sys, t: Sys, rid: RequestId, raw: Raw, choice: Choice)
    requires forall r :: At(s, r) == At(t, r)
    requires s.admitted == t.admitted && s.cfg == t.cfg
    ensures CallOutcome(env, s, rid, raw, choice) == CallOutcome(env, t, rid, raw, choice)
    ensures AdmittedAfter(env, s, rid, raw) == AdmittedAfter(env, t, rid, raw)
  {
  }

  /** Delivering the same bytes again under the same configuration changes nothing at all. */
  lemma RedeliveryIsSilent(env: Env, s: Sys, rid: RequestId, raw: Raw, first: Choice, second: Choice)
    requires ReceiptInv(s)
    ensures var t := AfterCall(env, s, rid, raw, first); AfterCall(env, t, rid, raw, second) == t
  {
    var t := AfterCall(env, s, rid, raw, first);
    assert FolderInv(s, rid, At(s, rid));
    assert CallOutcome(env, t, rid, raw, second) == Same(At(t, rid));
    assert t.folders[rid := t.folders[rid]] == t.folders;
  }

  class Bridge {
    var folders: map<RequestId, Folder>
    var admitted: map<OperationId, Admission>
    var runs: seq<Run>
    var drained: set<RequestId>

    ghost const env: Env
    ghost var machine: Sys       // the machine state these files stand for
    ghost var origin: Sys        // machine state when the current call began
    ghost var trace: seq<Label>  // transitions taken since then

    constructor (env: Env, cfg: ConfigId)
      ensures this.env == env && Quiet() && machine == Initial(cfg) && Sound()
    {
      folders, admitted, runs, drained := map[], map[], [], {};
      this.env := env;
      machine, origin, trace := Initial(cfg), Initial(cfg), [];
    }

    function FolderOf(rid: RequestId): Folder
      reads this
    {
      if rid in folders then folders[rid] else EMPTY
    }

    /** The files, the run log and the drained set are as this outcome leaves them. */
    twostate predicate Did(rid: RequestId, raw: Raw, o: Outcome)
      reads this
    {
      && folders == old(folders)[rid := o.folder]
      && runs == (if o.ran then old(runs) + [Run(rid, raw)] else old(runs))
      && drained == (if o.drained then old(drained) + {rid} else old(drained))
    }

    ghost predicate Synced()
      reads this
    {
      && folders == machine.folders
      && admitted == machine.admitted && runs == machine.runs && drained == machine.drained
      && Traced()
    }

    /** The machine state is reached by the transitions recorded so far. */
    ghost predicate Traced()
      reads this
    {
      Exec(env, true, origin, trace) == machine
    }

    ghost predicate Quiet()
      reads this
    {
      Synced() && machine.workers == map[] && machine.claims == map[] && machine.opLocks == map[]
    }

    ghost predicate Sound()
      reads this
    {
      ExecInv(env, machine) && ReceiptInv(machine)
    }

    /** The single worker of this call stands at pc. */
    ghost predicate Here(rid: RequestId, raw: Raw, pc: PC)
      reads this
    {
      && Synced() && rid in folders && machine.workers == map[0 := Worker(rid, raw, pc)]
      && (forall op :: op in machine.opLocks ==> machine.opLocks[op] == 0)
    }

    /** Record the transition that the statement just executed stands for. */
    ghost method Tick(l: Label)
      requires Traced()
      modifies this`machine, this`trace
      ensures machine == Apply(env, true, old(machine), l)
      ensures Traced() && trace == old(trace) + [l]
    {
      ExecAppend(env, true, origin, trace, [l]);
      assert Exec(env, true, machine, [l]) == Exec(env, true, Apply(env, true, machine, l), []);
      machine := Apply(env, true, machine, l);
      trace := trace + [l];
    }

    /** The worker takes one transition with effect e. */
    ghost method Advance(rid: RequestId, raw: Raw, pc: PC, choice: Choice, e: Effect)
      requires machine.workers == map[0 := Worker(rid, raw, pc)] && !pc.Done?
      requires Step(env, machine, Worker(rid, raw, pc), choice) == e
      requires Traced()
      modifies this`machine, this`trace
      ensures machine.workers == map[0 := Worker(rid, raw, e.pc)] && machine.cfg == old(machine.cfg)
      ensures machine.folders == old(machine.folders)[rid := e.folder]
      ensures rid in old(machine.folders) && old(machine.folders)[rid] == e.folder ==> machine.folders == old(machine.folders)
      ensures machine.admitted ==
        if e.admit.Some? then old(machine.admitted)[e.admit.value.0 := e.admit.value.1] else old(machine.admitted)
      ensures machine.claims == if e.claim then old(machine.claims)[rid := 0] else old(machine.claims)
      ensures machine.opLocks == if e.lock.Some? then old(machine.opLocks)[e.lock.value := 0] else old(machine.opLocks)
      ensures machine.runs == if e.enters then old(machine.runs) + [Run(rid, raw)] else old(machine.runs)
      ensures machine.drained == if e.drains then old(machine.drained) + {rid} else old(machine.drained)
      ensures Traced()
      ensures Worked(old(trace), trace)
    {
      Tick(Work(0, choice));
      assert machine == Perform(old(machine), 0, e);
    }

    /** The call is over: its worker and locks go. */
    ghost method Leave(rid: RequestId, raw: Raw, choice: Choice)
      requires machine.workers == map[0 := Worker(rid, raw, Done)]
      requires forall op :: op in machine.opLocks ==> machine.opLocks[op] == 0
      requires forall r :: r in machine.claims ==> machine.claims[r] == 0
      requires Traced()
      modifies this`machine, this`trace
      ensures machine == old(machine).(workers := map[], claims := map[], opLocks := map[])
      ensures Traced()
      ensures Worked(old(trace), trace)
    {
      Tick(Work(0, choice));
      assert machine.claims == map[] && machine.opLocks == map[];
    }

    /**
    One delivery: the call's transitions are its launch and its own steps to the end, and the worker is gone
    when it returns, so the machine has been run to completion on this request.
    */
    method ProcessOne(env: Env, cfg: ConfigId, rid: RequestId, raw: Raw, choice: Choice)
      requires env == this.env && cfg == machine.cfg && Quiet() && Sound()
      modifies this
      ensures Quiet() && Sound() && machine.cfg == cfg
      ensures machine == AfterCall(env, old(machine), rid, raw, choice)
      ensures origin == old(machine) && machine == Exec(env, true, old(machine), trace)
      ensures |trace| > 0 && trace[0] == Launch(0, rid, raw) && Worked([Launch(0, rid, raw)], trace)
    {
      hide ExecInv, ReceiptInv, CallOutcome, AdmittedAfter, Exec, Apply, Perform, Release;
      Arrive(rid, raw);
      SameJournal(env, old(machine), machine, rid, raw, choice);
      Route(env, cfg, rid, raw, choice);
      ReachableExecInv(env, true, origin, trace);
      ReachableReceiptInv(env, origin, trace);
    }

    /** The worker of this call is there and has done nothing yet. */
    ghost predicate Arriving(rid: RequestId, raw: Raw)
      reads this
    {
      && Traced() && folders == machine.folders
      && admitted == machine.admitted && runs == machine.runs && drained == machine.drained
      && machine.workers == map[0 := Worker(rid, raw, Arrived)] && machine.claims == map[] && machine.opLocks == map[]
    }

    ghost method Arrive(rid: RequestId, raw: Raw)
      requires Quiet()
      modifies this`machine, this`origin, this`trace
      ensures origin == old(machine)
      ensures Arriving(rid, raw) && trace == [Launch(0, rid, raw)]
      ensures machine == old(machine).(workers := machine.workers)
    {
      origin, trace := machine, [];
      Tick(Launch(0, rid, raw));
    }

    /** Through the operation lock when the request names an operation, directly otherwise. */
    method Route(env: Env, cfg: ConfigId, rid: RequestId, raw: Raw, choice: Choice)
      requires env == this.env && cfg == machine.cfg
      requires Arriving(rid, raw)
      modifies this`folders, this`admitted, this`runs, this`drained, this`machine, this`trace
      ensures Quiet() && machine.cfg == cfg
      ensures Did(rid, raw, CallOutcome(env, old(machine), rid, raw, choice))
      ensures admitted == AdmittedAfter(env, old(machine), rid, raw)
      ensures Worked(old(trace), trace)
    {
      hide Exec, Apply, Perform, Release, ClaimedOutcome, ReplyOutcome, OriginalOutcome, ReplyReceipt;
      folders := folders[rid := FolderOf(rid)];
      var logical := env.Logical(raw, rid, cfg);
      Enter(rid, raw, choice);
      if logical.None? {
        ProcessOneRequest(env, cfg, rid, raw, choice);
      } else {
        SameJournal(env, old(machine), machine, rid, raw, choice);
        Deduplicate(env, cfg, rid, raw, logical.value.0, logical.value.1, choice);
      }
    }

    /** The operation lock is free when the call is alone. */
    ghost method Enter(rid: RequestId, raw: Raw, choice: Choice)
      requires Traced() && machine.workers == map[0 := Worker(rid, raw, Arrived)]
      requires machine.claims == map[] && machine.opLocks == map[]
      requires folders == machine.folders[rid := At(machine, rid)]
      requires admitted == machine.admitted && runs == machine.runs && drained == machine.drained
      modifies this`machine, this`trace
      ensures Here(rid, raw, if env.Logical(raw, rid, machine.cfg).Some? then InOperation else AwaitClaim)
      ensures machine.claims == map[] && machine.cfg == old(machine.cfg) && machine.admitted == old(machine.admitted)
      ensures Worked(old(trace), trace)
    {
      hide Exec, Apply, Perform, Release;
      match env.Logical(raw, rid, machine.cfg)
      case None => Advance(rid, raw, Arrived, choice, Effect(AwaitClaim, FolderOf(rid)));
      case Some((op, _)) => Advance(rid, raw, Arrived, choice, Effect(InOperation, FolderOf(rid), lock := Some(op)));
    }

    /** The branch under the operation lock. */
    method Deduplicate(env: Env, cfg: ConfigId, rid: RequestId, raw: Raw, op: OperationId, digest: Digest, choice: Choice)
      requires env == this.env && cfg == machine.cfg
      requires env.Logical(raw, rid, cfg) == Some((op, digest))
      requires Here(rid, raw, InOperation) && machine.claims == map[]
      modifies this`folders, this`admitted, this`runs, this`drained, this`machine, this`trace
      ensures Quiet() && machine.cfg == cfg
      ensures Did(rid, raw, CallOutcome(env, old(machine), rid, raw, choice))
      ensures admitted == AdmittedAfter(env, old(machine), rid, raw)
      ensures Worked(old(trace), trace)
    {
      var f := FolderOf(rid);
      ghost var next := OperationPoint(env, machine, rid, raw, op, digest);
      Advance(rid, raw, InOperation, choice, Effect(next, f));
      if op !in admitted {
        admitted := admitted[op := Admission(digest, rid)];
        Advance(rid, raw, Admit, choice, Effect(AwaitClaim, f, admit := Some((op, Admission(digest, rid)))));
        ProcessOneRequest(env, cfg, rid, raw, choice);
        return;
      }
      var admission := admitted[op];
      if admission.digest != digest {
        if admission.original == rid {
          Leave(rid, raw, choice);
        } else {
          Reply(env, cfg, rid, raw, Plain(rid, raw, Rejected), choice);
        }
      } else if admission.original == rid {
        ReconcileOriginal(env, cfg, rid, raw, choice);
      } else {
        var receipt := ReadReply(env, cfg, rid, raw, op, admission);
        Reply(env, cfg, rid, raw, receipt, choice);
      }
    }

    /** The admitted original was delivered again. */
    method ReconcileOriginal(env: Env, cfg: ConfigId, rid: RequestId, raw: Raw, choice: Choice)
      requires env == this.env && cfg == machine.cfg && machine.claims == map[]
      requires Here(rid, raw, OriginalPoint(FolderOf(rid), rid, raw))
      modifies this`folders, this`runs, this`drained, this`machine, this`trace
      ensures Quiet() && machine.cfg == cfg
      ensures Did(rid, raw, OriginalOutcome(env, cfg, rid, raw, old(FolderOf(rid))))
      ensures Worked(old(trace), trace)
    {
      var f := FolderOf(rid);
      var receipt := Plain(rid, raw, Indeterminate);
      if f.result.Some? || f.finished.Some? {
        Leave(rid, raw, choice);
      } else if f.started.Some? {
        ProcessOneRequest(env, cfg, rid, raw, choice);
      } else if f.active {
        Leave(rid, raw, choice);
      } else if f.request.None? {
        folders := folders[rid := f.(request := Some(raw))];
        Advance(rid, raw, PutRequest(receipt), choice, Effect(PutResult(receipt), f.(request := Some(raw))));
        PersistThenPublish(rid, raw, receipt, choice);
      } else if f.request.value != raw {
        Leave(rid, raw, choice);
      } else {
        PersistThenPublish(rid, raw, receipt, choice);
      }
    }

    /** Answer a request that is not the original, unless its own folder already says something. */
    method Reply(env: Env, cfg: ConfigId, rid: RequestId, raw: Raw, receipt: Receipt, choice: Choice)
      requires env == this.env && cfg == machine.cfg && machine.claims == map[]
      requires Here(rid, raw, ReplyPoint(FolderOf(rid), raw, receipt))
      modifies this`folders, this`runs, this`drained, this`machine, this`trace
      ensures Quiet() && machine.cfg == cfg
      ensures Did(rid, raw, ReplyOutcome(env, cfg, rid, raw, receipt, choice, old(FolderOf(rid))))
      ensures Worked(old(trace), trace)
    {
      var f := FolderOf(rid);
      if f.result.Some? || f.finished.Some? {
        Leave(rid, raw, choice);
      } else if f.started.Some? {
        ProcessOneRequest(env, cfg, rid, raw, choice);
      } else if f.active {
        Leave(rid, raw, choice);
      } else if f.request.Some? && f.request.value != raw {
        Leave(rid, raw, choice);
      } else {
        PersistThenPublish(rid, raw, receipt, choice);
      }
    }

    /** Read the original's receipt; anything unverifiable becomes "indeterminate". */
    method ReadReply(env: Env, cfg: ConfigId, rid: RequestId, raw: Raw, op: OperationId, admission: Admission)
      returns (receipt: Receipt)
      requires cfg == machine.cfg && folders == machine.folders
      ensures receipt == ReplyReceipt(env, machine, rid, raw, op, admission)
    {
      var f := FolderOf(admission.original);
      receipt := Plain(rid, raw, Indeterminate);
      if f.active || f.request.None? || f.finished.None? || f.result.None? {
        return;
      }
      var source, prior, mark := f.request.value, f.result.value, f.finished.value;
      var v := env.parse(source, admission.original);
      if v.None? || env.DigestOf(v.value, cfg) != Some(admission.digest) || v.value.operation != Some(op) {
        return;
      }
      if prior.id != admission.original || prior.sha != Sha(source) || mark != Mark(prior.status, Sha(source)) {
        return;
      }
      if prior.status == Completed && f.started.None? {
        return;
      }
      if f.started.Some? && f.started.value != Sha(source) {
        return;
      }
      receipt := Receipt(rid, prior.status, Sha(raw), Some(ReplayProof(op, admission.original, ReceiptSha(prior))));
    }

    /** Claim the request, then act on what its folder says. */
    method ProcessOneRequest(env: Env, cfg: ConfigId, rid: RequestId, raw: Raw, choice: Choice)
      requires env == this.env && cfg == machine.cfg
      requires Here(rid, raw, AwaitClaim) && machine.claims == map[]
      modifies this`folders, this`runs, this`drained, this`machine, this`trace
      ensures Quiet() && machine.cfg == cfg
      ensures Did(rid, raw, ClaimedOutcome(env, cfg, rid, raw, choice, old(FolderOf(rid))))
      ensures Worked(old(trace), trace)
    {
      Advance(rid, raw, AwaitClaim, choice, Effect(Inspect, FolderOf(rid), claim := true));
      assert machine.claims == map[rid := 0];
      Advance(rid, raw, Inspect, choice, Effect(ClaimedPoint(env, FolderOf(rid), rid, raw), FolderOf(rid)));
      ProcessClaimedRequest(env, cfg, rid, raw, choice);
    }

    /** Refuse, publish what is stored, recover an interrupted run, or execute. */
    method ProcessClaimedRequest(env: Env, cfg: ConfigId, rid: RequestId, raw: Raw, choice: Choice)
      requires env == this.env && cfg == machine.cfg && machine.claims == map[rid := 0]
      requires Here(rid, raw, ClaimedPoint(env, FolderOf(rid), rid, raw))
      modifies this`folders, this`runs, this`drained, this`machine, this`trace
      ensures Quiet() && machine.cfg == cfg
      ensures Did(rid, raw, ClaimedOutcome(env, cfg, rid, raw, choice, old(FolderOf(rid))))
      ensures Worked(old(trace), trace)
    {
      hide Exec, Apply, Perform, Release, GateOutcome, Recorded;
      var f := FolderOf(rid);
      if env.oversize(raw) {
        Leave(rid, raw, choice);
        return;
      }
      var prior := if f.started.Some? then f.started else if f.request.Some? then Some(Sha(f.request.value)) else None;
      if prior.Some? && prior.value != Sha(raw) {
        Leave(rid, raw, choice);
      } else if f.finished.Some? && f.result.Some? {
        Leave(rid, raw, choice);
      } else if f.started.Some? && f.finished.None? {
        Recover(rid, raw, choice);
      } else {
        Accept(env, cfg, rid, raw, choice);
      }
    }

    /** The bytes first, then whatever the gate says. */
    method Accept(env: Env, cfg: ConfigId, rid: RequestId, raw: Raw, choice: Choice)
      requires env == this.env && cfg == machine.cfg && machine.claims == map[rid := 0]
      requires Here(rid, raw, WriteRequest)
      modifies this`folders, this`runs, this`drained, this`machine, this`trace
      ensures Quiet() && machine.cfg == cfg
      ensures Did(rid, raw, GateOutcome(env, cfg, rid, raw, choice, old(FolderOf(rid)).(request := Some(raw))))
      ensures Worked(old(trace), trace)
    {
      hide Exec, Apply, Perform, Release, GateOutcome;
      var f := FolderOf(rid).(request := Some(raw));
      folders := folders[rid := f];
      Advance(rid, raw, WriteRequest, choice, Effect(Gate, f));
      Execute(env, cfg, rid, raw, choice);
    }

    /** STARTED without FINISHED: contain what is left of the process and say "indeterminate". */
    method Recover(rid: RequestId, raw: Raw, choice: Choice)
      requires Here(rid, raw, ClearActive(Plain(rid, raw, Indeterminate)))
      requires machine.claims == map[rid := 0]
      modifies this`folders, this`machine, this`trace
      ensures Quiet() && machine.cfg == old(machine.cfg)
      ensures folders == old(folders)[rid :=
        Recorded(old(FolderOf(rid)).(active := false), Plain(rid, raw, Indeterminate))]
      ensures Worked(old(trace), trace)
    {
      ClearThenPersist(rid, raw, Plain(rid, raw, Indeterminate), choice);
    }

    /** Validation, policy and approval, then STARTED and the shell. */
    method Execute(env: Env, cfg: ConfigId, rid: RequestId, raw: Raw, choice: Choice)
      requires env == this.env && cfg == machine.cfg
      requires Here(rid, raw, Gate) && machine.claims == map[rid := 0]
      modifies this`folders, this`runs, this`drained, this`machine, this`trace
      ensures Quiet() && machine.cfg == cfg
      ensures Did(rid, raw, GateOutcome(env, cfg, rid, raw, choice, old(FolderOf(rid))))
      ensures Worked(old(trace), trace)
    {
      hide Exec, Apply, Perform, Release, StartOutcome, Recorded;
      var f := FolderOf(rid);
      if !env.Runnable(raw, rid, cfg) || !choice.approved {
        var receipt := Plain(rid, raw, Rejected);
        Advance(rid, raw, Gate, choice, Effect(PutResult(receipt), f));
        PersistThenPublish(rid, raw, receipt, choice);
        return;
      }
      Advance(rid, raw, Gate, choice, Effect(CreateStarted, f));
      Start(rid, raw, choice);
    }

    /** STARTED is created exclusively; whoever finds it there goes away. */
    method Start(rid: RequestId, raw: Raw, choice: Choice)
      requires Here(rid, raw, CreateStarted) && machine.claims == map[rid := 0]
      modifies this`folders, this`runs, this`drained, this`machine, this`trace
      ensures Quiet() && machine.cfg == old(machine.cfg)
      ensures Did(rid, raw, StartOutcome(rid, raw, choice, old(FolderOf(rid))))
      ensures Worked(old(trace), trace)
    {
      hide Exec, Apply, Perform, Release, RunOutcome, Recorded;
      var f := FolderOf(rid);
      if f.started.Some? {
        Advance(rid, raw, CreateStarted, choice, Effect(Done, f));
        Leave(rid, raw, choice);
        return;
      }
      folders := folders[rid := f.(started := Some(Sha(raw)))];
      Advance(rid, raw, CreateStarted, choice, Effect(EnterShell, f.(started := Some(Sha(raw)))));
      RunShell(rid, raw, choice);
    }

    /** Enter the shell once; a spawn leaves ACTIVE behind until the run returns. */
    method RunShell(rid: RequestId, raw: Raw, choice: Choice)
      requires Here(rid, raw, EnterShell) && machine.claims == map[rid := 0]
      modifies this`folders, this`runs, this`drained, this`machine, this`trace
      ensures Quiet() && machine.cfg == old(machine.cfg)
      ensures Did(rid, raw, RunOutcome(rid, raw, choice, old(FolderOf(rid))))
      ensures Worked(old(trace), trace)
    {
      hide Exec, Apply, Perform, Release, Recorded;
      var f := FolderOf(rid);
      runs := runs + [Run(rid, raw)];
      Advance(rid, raw, EnterShell, choice, Effect(Running, f, enters := true));
      if choice.spawn {
        folders := folders[rid := f.(active := true)];
        Advance(rid, raw, Running, choice, Effect(Running, f.(active := true)));
      }
      ReturnFromShell(rid, raw, choice);
    }

    method ReturnFromShell(rid: RequestId, raw: Raw, choice: Choice)
      requires Here(rid, raw, Running) && machine.claims == map[rid := 0]
      modifies this`folders, this`drained, this`machine, this`trace
      ensures Quiet() && machine.cfg == old(machine.cfg)
      ensures drained == if choice.drained then old(drained) + {rid} else old(drained)
      ensures folders == old(folders)[rid :=
        Recorded(old(FolderOf(rid)).(active := false), Plain(rid, raw, RunStatus(choice)))]
      ensures Worked(old(trace), trace)
    {
      hide Exec, Apply, Perform, Release, Recorded;
      var f := FolderOf(rid);
      var receipt := Plain(rid, raw, RunStatus(choice));
      if choice.drained {
        drained := drained + {rid};
      }
      Advance(rid, raw, Running, choice.(spawn := false), Effect(ClearActive(receipt), f, drains := choice.drained));
      ClearThenPersist(rid, raw, receipt, choice);
    }

    /** ACTIVE goes once nothing of the process is left. */
    method ClearThenPersist(rid: RequestId, raw: Raw, receipt: Receipt, choice: Choice)
      requires Here(rid, raw, ClearActive(receipt)) && machine.claims == map[rid := 0]
      modifies this`folders, this`machine, this`trace
      ensures Quiet() && machine.cfg == old(machine.cfg)
      ensures folders == old(folders)[rid := Recorded(old(FolderOf(rid)).(active := false), receipt)]
      ensures Worked(old(trace), trace)
    {
      hide Exec, Apply, Perform, Release, Recorded;
      var f := FolderOf(rid).(active := false);
      folders := folders[rid := f];
      Advance(rid, raw, ClearActive(receipt), choice, Effect(PutResult(receipt), f));
      PersistThenPublish(rid, raw, receipt, choice);
    }

    /** Result first, FINISHED second; publication leaves the journal alone. */
    method PersistThenPublish(rid: RequestId, raw: Raw, receipt: Receipt, choice: Choice)
      requires Here(rid, raw, PutResult(receipt))
      requires forall r :: r in machine.claims ==> machine.claims[r] == 0
      modifies this`folders, this`machine, this`trace
      ensures Quiet() && machine.cfg == old(machine.cfg)
      ensures folders == old(folders)[rid := Recorded(old(FolderOf(rid)), receipt)]
      ensures Worked(old(trace), trace)
    {
      var f := FolderOf(rid).(result := Some(receipt));
      folders := folders[rid := f];
      Advance(rid, raw, PutResult(receipt), choice, Effect(PutFinished(receipt), f));
      f := f.(finished := Some(Mark(receipt.status, receipt.sha)));
      folders := folders[rid := f];
      Advance(rid, raw, PutFinished(receipt), choice, Effect(Done, f));
      Leave(rid, raw, choice);
    }
  }
}
