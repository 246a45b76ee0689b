/**
What a delivery is answered with, read off the journal alone: the files of its folder, the admissions,
the stored bytes of the original, and what validation, plan and operator say.  Together the lemmas cover
every folder a reachable journal can hold.
*/
module BridgeAnswers {
  import opened Prelude
  import opened RequestJournal
  import opened JournalExecution
  import opened JournalReceipts
  import opened BridgeProcess

  /** These bytes, under this request ID, name the operation and have this digest under the configuration. */
  predicate AsksFor(env: Env, cfg: ConfigId, rid: RequestId, raw: Raw, op: OperationId, digest: Digest) {
    var v := env.parse(raw, rid);
    && v.Some? && v.value.operation == Some(op)
    && env.plan(v.value.payload, cfg) == Some(digest.plan) && digest.payload == v.value.payload
  }

  /** The request is small enough to be read and is one of the operation. */
  predicate Deduplicates(env: Env, cfg: ConfigId, rid: RequestId, raw: Raw, op: OperationId, digest: Digest) {
    !env.oversize(raw) && AsksFor(env, cfg, rid, raw, op, digest)
  }

  /** It belongs to no operation, or to one that nobody has asked for before. */
  ghost predicate Unadmitted(env: Env, s: Sys, rid: RequestId, raw: Raw) {
    forall op: OperationId, digest: Digest :: Deduplicates(env, s.cfg, rid, raw, op, digest) ==> op !in s.admitted
  }

  /** Valid, and its write plan can be resolved. */
  predicate Executable(env: Env, cfg: ConfigId, rid: RequestId, raw: Raw) {
    && !env.oversize(raw) && env.parse(raw, rid).Some?
    && env.plan(env.parse(raw, rid).value.payload, cfg).Some?
  }

  /** No STARTED and no FINISHED, and no bytes but these. */
  predicate Open(f: Folder, raw: Raw) {
    f.started.None? && f.finished.None? && (f.request.None? || f.request == Some(raw))
  }

  /** The answer on disk. */
  predicate Answer(f: Folder, rid: RequestId, raw: Raw, status: Status, replay: Option<ReplayProof>) {
    f.result == Some(Receipt(rid, status, Sha(raw), replay)) && f.finished == Some(Mark(status, Sha(raw)))
  }

  /** Nothing outside the request's own folder changed, and nothing ran. */
  ghost predicate OnlyFolder(s: Sys, t: Sys, rid: RequestId) {
    && (forall r :: r != rid ==> At(t, r) == At(s, r))
    && t.admitted == s.admitted && t.runs == s.runs && t.drained == s.drained
  }

  ghost predicate Untouched(s: Sys, t: Sys) {
    (forall r :: At(t, r) == At(s, r)) && t.runs == s.runs && t.drained == s.drained
  }

  /** The machine's own notion of the operation of a request is the one of the bytes. */
  lemma LogicalIsAsked(env: Env, cfg: ConfigId, rid: RequestId, raw: Raw, op: OperationId, digest: Digest)
    ensures env.Logical(raw, rid, cfg) == Some((op, digest)) <==> Deduplicates(env, cfg, rid, raw, op, digest)
  {
  }

  /** A folder of the reachable journal whose original-to-be holds a completion holds one of its own run. */
  lemma OriginalRanItself(env: Env, s: Sys, original: RequestId, op: OperationId, digest: Digest)
    requires ReceiptInv(s) && ReplayInv(env, s) && Owns(s, op, original)
    requires var f := At(s, original);
      f.finished.Some? && f.request.Some? && AsksFor(env, s.cfg, original, f.request.value, op, digest)
    ensures var f := At(s, original);
      f.finished.value.status == Completed ==> f.started == Some(Sha(f.request.value))
  {
    var f := At(s, original);
    assert FolderInv(s, original, f);
    assert SameOperation(env, s, original, f.result.value);
  }

  lemma ReachedInv(env: Env, cfg: ConfigId, labels: seq<Label>, s: Sys)
    requires s == Exec(env, true, Initial(cfg), labels)
    ensures ReceiptInv(s) && ReplayInv(env, s)
  {
    InitialReceiptInv(cfg);
    ReachableReceiptInv(env, Initial(cfg), labels);
    ReachableReplayInv(env, true, Initial(cfg), labels);
  }

  lemma UnadmittedHasNoAdmission(env: Env, s: Sys, rid: RequestId, raw: Raw)
    requires Unadmitted(env, s, rid, raw)
    ensures var logical := env.Logical(raw, rid, s.cfg); logical.Some? ==> logical.value.0 !in s.admitted
    ensures forall op: OperationId, digest: Digest ::
      Deduplicates(env, s.cfg, rid, raw, op, digest) <==> env.Logical(raw, rid, s.cfg) == Some((op, digest))
  {
    forall op: OperationId, digest: Digest
      ensures Deduplicates(env, s.cfg, rid, raw, op, digest) <==> env.Logical(raw, rid, s.cfg) == Some((op, digest))
    {
      LogicalIsAsked(env, s.cfg, rid, raw, op, digest);
    }
  }

  // ---------------------------------------------------------------- requests that say something new

  /**
  A request whose operation, if it has one, nobody asked for before, on a folder with no STARTED, no
  FINISHED and no other bytes.  It enters the shell, once, exactly if it is executable and approved, and is
  then completed exactly if its streams drained; otherwise it is rejected; oversized bytes leave no trace.
  */
  lemma NewRequestRunsIff(env: Env, cfg: ConfigId, labels: seq<Label>, s: Sys, rid: RequestId, raw: Raw, choice: Choice)
    requires s == Exec(env, true, Initial(cfg), labels)
    requires Unadmitted(env, s, rid, raw) && Open(At(s, rid), raw)
    ensures var t := AfterCall(env, s, rid, raw, choice);
      && (forall r :: r != rid ==> At(t, r) == At(s, r))
      && if env.oversize(raw) then Untouched(s, t)
         else if Executable(env, s.cfg, rid, raw) && choice.approved then
           && t.runs == s.runs + [Run(rid, raw)]
           && t.drained == (if choice.drained then s.drained + {rid} else s.drained)
           && At(t, rid).request == Some(raw) && At(t, rid).started == Some(Sha(raw)) && !At(t, rid).active
           && Answer(At(t, rid), rid, raw, if choice.drained then Completed else Indeterminate, None)
         else
           && t.runs == s.runs && t.drained == s.drained
           && At(t, rid).request == Some(raw) && At(t, rid).started.None?
           && Answer(At(t, rid), rid, raw, Rejected, None)
  {
    ReachedInv(env, cfg, labels, s);
    UnadmittedHasNoAdmission(env, s, rid, raw);
    assert FolderInv(s, rid, At(s, rid));
    hide Exec, ReceiptInv, ReplayInv;
  }

  /** Such a request is admitted for its operation under its digest; no other admission changes. */
  lemma NewRequestIsAdmitted(env: Env, s: Sys, rid: RequestId, raw: Raw, choice: Choice)
    requires Unadmitted(env, s, rid, raw)
    ensures var t := AfterCall(env, s, rid, raw, choice);
      && (forall op: OperationId, digest: Digest ::
        Deduplicates(env, s.cfg, rid, raw, op, digest) ==> t.admitted == s.admitted[op := Admission(digest, rid)])
      && ((forall op: OperationId, digest: Digest :: !Deduplicates(env, s.cfg, rid, raw, op, digest)) ==>
        t.admitted == s.admitted)
  {
    UnadmittedHasNoAdmission(env, s, rid, raw);
    var logical := env.Logical(raw, rid, s.cfg);
    if logical.Some? {
      assert Deduplicates(env, s.cfg, rid, raw, logical.value.0, logical.value.1);
    }
  }

  // ---------------------------------------------------------------- requests of an admitted operation

  /**
  A second request of an admitted operation, with the admitted digest.  It is answered with the original's
  own status and a replay that names the original and its result exactly if the original has FINISHED on
  bytes that ask for this operation with this digest; otherwise with "indeterminate".  Nothing is run.
  */
  lemma DuplicateGetsTheOriginalsAnswer(
    env: Env, cfg: ConfigId, labels: seq<Label>, s: Sys, rid: RequestId, raw: Raw, op: OperationId, choice: Choice)
    requires s == Exec(env, true, Initial(cfg), labels)
    requires op in s.admitted && s.admitted[op].original != rid
    requires Deduplicates(env, s.cfg, rid, raw, op, s.admitted[op].digest)
    requires Open(At(s, rid), raw) && At(s, rid).result.None?
    ensures var t := AfterCall(env, s, rid, raw, choice);
      var a := s.admitted[op];
      var g := At(s, a.original);
      && OnlyFolder(s, t, rid) && At(t, rid).started.None? && At(t, rid).request == At(s, rid).request
      && if g.finished.Some? && g.request.Some? && AsksFor(env, s.cfg, a.original, g.request.value, op, a.digest) then
           && g.result.Some?
           && Answer(At(t, rid), rid, raw, g.finished.value.status,
                Some(ReplayProof(op, a.original, ReceiptSha(g.result.value))))
         else Answer(At(t, rid), rid, raw, Indeterminate, None)
  {
    ReachedInv(env, cfg, labels, s);
    LogicalIsAsked(env, s.cfg, rid, raw, op, s.admitted[op].digest);
    hide Exec;
    DuplicateOn(env, s, rid, raw, op, choice);
  }

  lemma DuplicateOn(env: Env, s: Sys, rid: RequestId, raw: Raw, op: OperationId, choice: Choice)
    requires ReceiptInv(s) && ReplayInv(env, s)
    requires op in s.admitted && s.admitted[op].original != rid
    requires env.Logical(raw, rid, s.cfg) == Some((op, s.admitted[op].digest))
    requires Open(At(s, rid), raw) && At(s, rid).result.None?
    ensures var t := AfterCall(env, s, rid, raw, choice);
      var a := s.admitted[op];
      var g := At(s, a.original);
      && OnlyFolder(s, t, rid) && At(t, rid).started.None? && At(t, rid).request == At(s, rid).request
      && if g.finished.Some? && g.request.Some? && AsksFor(env, s.cfg, a.original, g.request.value, op, a.digest) then
           && g.result.Some?
           && Answer(At(t, rid), rid, raw, g.finished.value.status,
                Some(ReplayProof(op, a.original, ReceiptSha(g.result.value))))
         else Answer(At(t, rid), rid, raw, Indeterminate, None)
  {
    var a := s.admitted[op];
    var f, g := At(s, rid), At(s, a.original);
    assert FolderInv(s, rid, f) && FolderInv(s, a.original, g);
    if g.finished.Some? && g.request.Some? && AsksFor(env, s.cfg, a.original, g.request.value, op, a.digest) {
      OriginalRanItself(env, s, a.original, op, a.digest);
    }
    hide ReceiptInv, ReplayInv;
  }

  /** With another digest than the admitted one the second request is rejected, and nothing is run. */
  lemma ConflictIsRejected(
    env: Env, cfg: ConfigId, labels: seq<Label>, s: Sys, rid: RequestId, raw: Raw, op: OperationId, digest: Digest,
    choice: Choice)
    requires s == Exec(env, true, Initial(cfg), labels)
    requires op in s.admitted && s.admitted[op].original != rid && s.admitted[op].digest != digest
    requires Deduplicates(env, s.cfg, rid, raw, op, digest)
    requires Open(At(s, rid), raw) && At(s, rid).result.None?
    ensures var t := AfterCall(env, s, rid, raw, choice);
      OnlyFolder(s, t, rid) && At(t, rid).started.None? && Answer(At(t, rid), rid, raw, Rejected, None)
  {
    ReachedInv(env, cfg, labels, s);
    LogicalIsAsked(env, s.cfg, rid, raw, op, digest);
    assert FolderInv(s, rid, At(s, rid));
    hide Exec, ReceiptInv, ReplayInv;
  }

  /**
  The admitted original again, before STARTED and without a result: its run can no longer be told from one
  that was lost, so it is recorded as indeterminate beside its bytes, and nothing is run.
  */
  lemma OriginalAgainIsIndeterminate(
    env: Env, cfg: ConfigId, labels: seq<Label>, s: Sys, rid: RequestId, raw: Raw, op: OperationId, choice: Choice)
    requires s == Exec(env, true, Initial(cfg), labels)
    requires Owns(s, op, rid) && Deduplicates(env, s.cfg, rid, raw, op, s.admitted[op].digest)
    requires Open(At(s, rid), raw) && At(s, rid).result.None?
    ensures var t := AfterCall(env, s, rid, raw, choice);
      && OnlyFolder(s, t, rid) && At(t, rid).started.None? && At(t, rid).request == Some(raw)
      && Answer(At(t, rid), rid, raw, Indeterminate, None)
  {
    ReachedInv(env, cfg, labels, s);
    LogicalIsAsked(env, s.cfg, rid, raw, op, s.admitted[op].digest);
    assert FolderInv(s, rid, At(s, rid));
    hide Exec, ReceiptInv, ReplayInv;
  }

  /** The admitted original with another digest than its own: refused without a trace. */
  lemma OwnConflictStays(
    env: Env, cfg: ConfigId, labels: seq<Label>, s: Sys, rid: RequestId, raw: Raw, op: OperationId, digest: Digest,
    choice: Choice)
    requires s == Exec(env, true, Initial(cfg), labels)
    requires Owns(s, op, rid) && s.admitted[op].digest != digest && Deduplicates(env, s.cfg, rid, raw, op, digest)
    ensures Untouched(s, AfterCall(env, s, rid, raw, choice))
  {
    LogicalIsAsked(env, s.cfg, rid, raw, op, digest);
    hide Exec;
  }

  // ---------------------------------------------------------------- folders that already say something

  /** The operation already speaks for this folder: it conflicts with its own admission, or its result is there. */
  ghost predicate Held(env: Env, s: Sys, rid: RequestId, raw: Raw) {
    exists op: OperationId, digest: Digest ::
      && Deduplicates(env, s.cfg, rid, raw, op, digest) && op in s.admitted
      && ((s.admitted[op].original == rid && s.admitted[op].digest != digest) || At(s, rid).result.Some?)
  }

  lemma HeldByLogical(env: Env, s: Sys, rid: RequestId, raw: Raw)
    ensures var logical := env.Logical(raw, rid, s.cfg);
      Held(env, s, rid, raw) <==>
        && logical.Some? && logical.value.0 in s.admitted
        && ((s.admitted[logical.value.0].original == rid && s.admitted[logical.value.0].digest != logical.value.1)
          || At(s, rid).result.Some?)
  {
    var logical := env.Logical(raw, rid, s.cfg);
    forall op: OperationId, digest: Digest
      ensures Deduplicates(env, s.cfg, rid, raw, op, digest) <==> logical == Some((op, digest))
    {
      LogicalIsAsked(env, s.cfg, rid, raw, op, digest);
    }
    hide Deduplicates, Env.Logical;
    if logical.Some? {
      assert Deduplicates(env, s.cfg, rid, raw, logical.value.0, logical.value.1);
    }
  }

  /**
  A run that left STARTED and no FINISHED is recorded as indeterminate and its ACTIVE marker goes, unless the
  request can no longer be read or its operation already speaks for the folder; nothing is run in either case.
  */
  lemma InterruptedIsClosed(env: Env, cfg: ConfigId, labels: seq<Label>, s: Sys, rid: RequestId, raw: Raw, choice: Choice)
    requires s == Exec(env, true, Initial(cfg), labels)
    requires At(s, rid).started == Some(Sha(raw)) && At(s, rid).finished.None?
    ensures var t := AfterCall(env, s, rid, raw, choice);
      && (forall r :: r != rid ==> At(t, r) == At(s, r)) && t.runs == s.runs && t.drained == s.drained
      && if env.oversize(raw) || Held(env, s, rid, raw) then At(t, rid) == At(s, rid)
         else
           && Answer(At(t, rid), rid, raw, Indeterminate, None) && !At(t, rid).active
           && At(t, rid).request == At(s, rid).request && At(t, rid).started == At(s, rid).started
  {
    HeldByLogical(env, s, rid, raw);
    hide Exec, ReceiptInv, ReplayInv, VerifiedOriginal, ReplyReceipt, Held, Env.Logical, Env.DigestOf;
    if env.oversize(raw) {
      NotLogical(env, s.cfg, rid, raw);
    }
  }

  lemma NotLogical(env: Env, cfg: ConfigId, rid: RequestId, raw: Raw)
    requires env.oversize(raw)
    ensures env.Logical(raw, rid, cfg).None?
  {
  }

  /** A result that was written without its FINISHED stays so when its admitted operation is asked for again. */
  lemma HalfRecordedStays(
    env: Env, cfg: ConfigId, labels: seq<Label>, s: Sys, rid: RequestId, raw: Raw, op: OperationId, digest: Digest,
    choice: Choice)
    requires s == Exec(env, true, Initial(cfg), labels)
    requires op in s.admitted && Deduplicates(env, s.cfg, rid, raw, op, digest) && At(s, rid).result.Some?
    ensures Untouched(s, AfterCall(env, s, rid, raw, choice))
  {
    LogicalIsAsked(env, s.cfg, rid, raw, op, digest);
    hide Exec, VerifiedOriginal, ReplyReceipt;
  }

  /** An answered folder, and a folder with other bytes, stay as they are whatever is delivered; nothing is run. */
  lemma SettledOrForeignStays(env: Env, cfg: ConfigId, labels: seq<Label>, s: Sys, rid: RequestId, raw: Raw, choice: Choice)
    requires s == Exec(env, true, Initial(cfg), labels)
    requires At(s, rid).finished.Some? || (At(s, rid).request.Some? && At(s, rid).request.value != raw)
    ensures Untouched(s, AfterCall(env, s, rid, raw, choice))
  {
    ReachedInv(env, cfg, labels, s);
    assert FolderInv(s, rid, At(s, rid));
    hide Exec, ReceiptInv, ReplayInv, VerifiedOriginal;
  }
}
