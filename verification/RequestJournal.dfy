/**
The durable request journal of the shell bridge, as a state machine.

One transition is one durable write, one lock operation, or one decision taken from what the
journal holds at that moment.  Workers interleave freely, may vanish at any point (an exception),
and a crash removes every worker and lock but no file.  `Exec` runs any sequence of labels from
the empty journal; a label that is not enabled changes nothing.

Identifiers and byte strings are only ever compared for equality, so numbers stand for them; a
hash is a constructor, hence injective.
*/
module RequestJournal {
  import opened Prelude

  type RequestId = nat
  type OperationId = nat
  type WorkerId = nat
  type Raw = nat
  type ConfigId = nat

  datatype Sha = Sha(of: Raw)
  datatype ReceiptSha = ReceiptSha(of: Receipt)

  datatype Status = Completed | Rejected | Indeterminate

  /** Present exactly when the stored result says "replayed". */
  datatype ReplayProof = ReplayProof(operation: OperationId, source: RequestId, sourceSha: ReceiptSha)

  datatype Receipt = Receipt(id: RequestId, status: Status, sha: Sha, replay: Option<ReplayProof>)

  datatype Mark = Mark(status: Status, sha: Sha)

  /** The files of one request directory. */
  datatype Folder = Folder(
    request: Option<Raw>, started: Option<Sha>, active: bool, result: Option<Receipt>, finished: Option<Mark>)

  datatype Digest = Digest(payload: nat, plan: nat)

  datatype Admission = Admission(digest: Digest, original: RequestId)

  datatype Parsed = Parsed(operation: Option<OperationId>, payload: nat)

  /**
  What the surrounding program decides: size limit, request validation, and the write plan, a
  function of the request and the loaded configuration (None: resolution raises).
  */
  datatype Env = Env(
    oversize: Raw -> bool,
    parse: (Raw, RequestId) -> Option<Parsed>,
    plan: (nat, ConfigId) -> Option<nat>)
  {
    function DigestOf(v: Parsed, cfg: ConfigId): Option<Digest> {
      match plan(v.payload, cfg)
      case None => None
      case Some(p) => Some(Digest(v.payload, p))
    }

    /** The operation a request is deduplicated under, if any. */
    function Logical(raw: Raw, rid: RequestId, cfg: ConfigId): Option<(OperationId, Digest)> {
      if oversize(raw) then None
      else match parse(raw, rid)
        case None => None
        case Some(v) =>
          if v.operation.None? || DigestOf(v, cfg).None? then None
          else Some((v.operation.value, DigestOf(v, cfg).value))
    }

    function OperationOf(raw: Raw, rid: RequestId): Option<OperationId> {
      match parse(raw, rid)
      case None => None
      case Some(v) => v.operation
    }

    predicate Runnable(raw: Raw, rid: RequestId, cfg: ConfigId) {
      !oversize(raw) && parse(raw, rid).Some? && DigestOf(parse(raw, rid).value, cfg).Some?
    }
  }

  /** Where a worker stands; the write it is about to perform where there is one. */
  datatype PC =
    | Arrived
    | InOperation
    | Admit
    | AwaitClaim
    | Inspect
    | WriteRequest
    | Gate
    | CreateStarted
    | EnterShell
    | Running
    | ClearActive(receipt: Receipt)
    | PutRequest(receipt: Receipt)
    | PutResult(receipt: Receipt)
    | PutFinished(receipt: Receipt)
    | Done

  datatype Worker = Worker(rid: RequestId, raw: Raw, pc: PC)

  datatype Run = Run(rid: RequestId, raw: Raw)

  datatype Sys = Sys(
    folders: map<RequestId, Folder>,
    admitted: map<OperationId, Admission>,
    workers: map<WorkerId, Worker>,
    claims: map<RequestId, WorkerId>,
    opLocks: map<OperationId, WorkerId>,
    cfg: ConfigId,
    runs: seq<Run>,            // every entry into run_shell, in order
    drained: set<RequestId>)   // requests whose run_shell returned with drained streams

  const EMPTY := Folder(None, None, false, None, None)

  function At(s: Sys, rid: RequestId): Folder {
    if rid in s.folders then s.folders[rid] else EMPTY
  }

  function Initial(cfg: ConfigId): Sys {
    Sys(map[], map[], map[], map[], map[], cfg, [], {})
  }

  // ---------------------------------------------------------------- decisions

  function Plain(rid: RequestId, raw: Raw, status: Status): Receipt {
    Receipt(rid, status, Sha(raw), None)
  }

  /** Terminal source of an operation, accepted only when request and markers agree. */
  function VerifiedOriginal(
    env: Env, s: Sys, prior: RequestId, op: OperationId, digest: Digest, expected: Option<Sha>): Option<Receipt>
  {
    var f := At(s, prior);
    if f.active || f.request.None? || f.finished.None? || f.result.None? then None
    else
      var raw, result, finished := f.request.value, f.result.value, f.finished.value;
      var v := env.parse(raw, prior);
      if v.None? || env.DigestOf(v.value, s.cfg) != Some(digest) || v.value.operation != Some(op)
         || result.id != prior || result.sha != Sha(raw) || finished != Mark(result.status, Sha(raw))
         || (expected.Some? && expected.value != Sha(raw))
         || (result.status == Completed && f.started.None?)
         || (f.started.Some? && f.started.value != Sha(raw))
      then None
      else Some(result)
  }

  /** A reply for a request that is not its operation's original. */
  function ReplyPoint(f: Folder, raw: Raw, receipt: Receipt): PC {
    if f.result.Some? || f.finished.Some? then Done
    else if f.started.Some? then AwaitClaim
    else if f.active then Done
    else if f.request.Some? && f.request.value != raw then Done
    else PutResult(receipt)
  }

  /** Redelivery of the admitted original itself. */
  function OriginalPoint(f: Folder, rid: RequestId, raw: Raw): PC {
    if f.result.Some? || f.finished.Some? then Done
    else if f.started.Some? then AwaitClaim
    else if f.active then Done
    else if f.request.None? then PutRequest(Plain(rid, raw, Indeterminate))
    else if f.request.value != raw then Done
    else PutResult(Plain(rid, raw, Indeterminate))
  }

  function ReplyReceipt(
    env: Env, s: Sys, rid: RequestId, raw: Raw, op: OperationId, admission: Admission): Receipt
  {
    match VerifiedOriginal(env, s, admission.original, op, admission.digest, None)
    case None => Plain(rid, raw, Indeterminate)
    case Some(prior) =>
      Receipt(rid, prior.status, Sha(raw), Some(ReplayProof(op, admission.original, ReceiptSha(prior))))
  }

  function OperationPoint(env: Env, s: Sys, rid: RequestId, raw: Raw, op: OperationId, digest: Digest): PC {
    if op !in s.admitted then Admit
    else
      var a := s.admitted[op];
      if a.digest != digest then
        if a.original == rid then Done else ReplyPoint(At(s, rid), raw, Plain(rid, raw, Rejected))
      else if a.original == rid then OriginalPoint(At(s, rid), rid, raw)
      else ReplyPoint(At(s, rid), raw, ReplyReceipt(env, s, rid, raw, op, a))
  }

  /** The request hash already bound to a request directory. */
  function BoundSha(f: Folder): Option<Sha> {
    if f.started.Some? then f.started
    else if f.request.Some? then Some(Sha(f.request.value))
    else None
  }

  function ClaimedPoint(env: Env, f: Folder, rid: RequestId, raw: Raw): PC {
    if env.oversize(raw) then Done
    else if BoundSha(f).Some? && BoundSha(f).value != Sha(raw) then Done
    else if f.finished.Some? && f.result.Some? then Done
    else if f.started.Some? && f.finished.None? then ClearActive(Plain(rid, raw, Indeterminate))
    else WriteRequest
  }

  // ---------------------------------------------------------------- transitions

  /** What is left to chance: operator approval, process spawn, and how run_shell returns. */
  datatype Choice = Choice(approved: bool, spawn: bool, drained: bool)

  datatype Label =
    | Launch(wid: WorkerId, rid: RequestId, raw: Raw)
    | Work(wid: WorkerId, choice: Choice)
    | Vanish(wid: WorkerId)
    | Crash(cfg: ConfigId)
    | Sweep(rid: RequestId)

  function Release(s: Sys, wid: WorkerId): Sys {
    s.(workers := s.workers - {wid},
       claims := map r | r in s.claims && s.claims[r] != wid :: s.claims[r],
       opLocks := map o | o in s.opLocks && s.opLocks[o] != wid :: s.opLocks[o])
  }

  /** Everything one step of a worker can change. */
  datatype Effect = Effect(
    pc: PC, folder: Folder,
    admit: Option<(OperationId, Admission)> := None,
    lock: Option<OperationId> := None,
    claim: bool := false,
    enters: bool := false,
    drains: bool := false)

  function Perform(s: Sys, wid: WorkerId, e: Effect): Sys
    requires wid in s.workers
  {
    var w := s.workers[wid];
    Sys(s.folders[w.rid := e.folder],
        if e.admit.Some? then s.admitted[e.admit.value.0 := e.admit.value.1] else s.admitted,
        s.workers[wid := w.(pc := e.pc)],
        if e.claim then s.claims[w.rid := wid] else s.claims,
        if e.lock.Some? then s.opLocks[e.lock.value := wid] else s.opLocks,
        s.cfg,
        if e.enters then s.runs + [Run(w.rid, w.raw)] else s.runs,
        if e.drains then s.drained + {w.rid} else s.drained)
  }

  /** One step of process_one / _process_claimed_request. */
  function Step(env: Env, s: Sys, w: Worker, c: Choice): Effect {
    var f := At(s, w.rid);
    match w.pc
    case Arrived =>
      (match env.Logical(w.raw, w.rid, s.cfg)
       case None => Effect(AwaitClaim, f)
       case Some((op, _)) => if op in s.opLocks then Effect(Arrived, f) else Effect(InOperation, f, lock := Some(op)))
    case InOperation =>
      (match env.Logical(w.raw, w.rid, s.cfg)
       case None => Effect(InOperation, f)
       case Some((op, digest)) => Effect(OperationPoint(env, s, w.rid, w.raw, op, digest), f))
    case Admit =>
      (match env.Logical(w.raw, w.rid, s.cfg)
       case None => Effect(Admit, f)
       case Some((op, digest)) => Effect(AwaitClaim, f, admit := Some((op, Admission(digest, w.rid)))))
    case AwaitClaim => if w.rid in s.claims then Effect(Done, f) else Effect(Inspect, f, claim := true)
    case Inspect => Effect(ClaimedPoint(env, f, w.rid, w.raw), f)
    case WriteRequest => Effect(Gate, f.(request := Some(w.raw)))
    case Gate =>
      if env.Runnable(w.raw, w.rid, s.cfg) && c.approved then Effect(CreateStarted, f)
      else Effect(PutResult(Plain(w.rid, w.raw, Rejected)), f)
    case CreateStarted =>
      if f.started.Some? then Effect(Done, f) else Effect(EnterShell, f.(started := Some(Sha(w.raw))))
    case EnterShell => Effect(Running, f, enters := true)
    case Running =>
      if c.spawn then Effect(Running, f.(active := true))
      else if c.drained then Effect(ClearActive(Plain(w.rid, w.raw, Completed)), f, drains := true)
      else Effect(ClearActive(Plain(w.rid, w.raw, Indeterminate)), f)
    case ClearActive(r) => Effect(PutResult(r), f.(active := false))
    case PutRequest(r) => Effect(PutResult(r), f.(request := Some(w.raw)))
    case PutResult(r) => Effect(PutFinished(r), f.(result := Some(r)))
    case PutFinished(r) => Effect(Done, f.(finished := Some(Mark(r.status, r.sha))))
    case Done => Effect(Done, f)
  }

  function Move(env: Env, s: Sys, wid: WorkerId, c: Choice): Sys
    requires wid in s.workers
  {
    if s.workers[wid].pc.Done? then Release(s, wid)
    else Perform(s, wid, Step(env, s, s.workers[wid], c))
  }

  /** Whether some worker is on this request: the daemon starts one worker per file name. */
  predicate Busy(s: Sys, rid: RequestId) {
    exists wid :: wid in s.workers && s.workers[wid].rid == rid
  }

  /** exclusive: the daemon's one-worker-per-name rule is in force. */
  function Apply(env: Env, exclusive: bool, s: Sys, l: Label): Sys {
    match l
    case Launch(wid, rid, raw) =>
      if wid in s.workers || (exclusive && Busy(s, rid)) then s
      else s.(workers := s.workers[wid := Worker(rid, raw, Arrived)])
    case Work(wid, c) => if wid in s.workers then Move(env, s, wid, c) else s
    case Vanish(wid) => Release(s, wid)
    case Crash(cfg) => s.(workers := map[], claims := map[], opLocks := map[], cfg := cfg)
    case Sweep(rid) =>
      var f := At(s, rid);
      if s.workers == map[] && f.started.Some? && f.finished.None? then s.(folders := s.folders[rid := f.(active := false)])
      else s
  }

  function Exec(env: Env, exclusive: bool, s: Sys, labels: seq<Label>): Sys
    decreases |labels|
  {
    if labels == [] then s
    else Exec(env, exclusive, Apply(env, exclusive, s, labels[0]), labels[1..])
  }

  lemma {:induction false} ExecAppend(env: Env, exclusive: bool, s: Sys, a: seq<Label>, b: seq<Label>)
    ensures Exec(env, exclusive, s, a + b) == Exec(env, exclusive, Exec(env, exclusive, s, a), b)
    decreases |a|
  {
    if a == [] {
      assert a + b == b;
    } else {
      assert (a + b)[1..] == a[1..] + b;
      ExecAppend(env, exclusive, Apply(env, exclusive, s, a[0]), a[1..], b);
    }
  }
}
