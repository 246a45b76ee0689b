/**
`_integrate_job_locked` as it runs.  Others may write commits, integrate other jobs and advance the
canonical branch before every fetch and before the push.  An attempt is proved to be a run of the machine
of `WorkspaceHistory`, and a reported integration to be one canonical history contains.
*/
module WorkspaceProcess {
  import opened Prelude
  import opened WorkspaceHistory
  import opened WorkspaceIntegration

  datatype JobState = Active | Ready | Conflicted | Integrated(commit: Sha)

  /** The job's metadata file. */
  datatype Metadata = Metadata(state: JobState, checkpoint: Option<Sha>, reconciled: Option<Sha>)

  datatype Failure =
    | UnknownJob | Ambiguous | NotReady | Dirty | BaseLost | PolicyChanged | ReconcileRequired | MergeConflict
    | ValidationFailed | TargetMoved | PushFailed | Unpublished | Unverified | Unreceipted | Unsaved | Unrecovered

  /** The terminal receipt file: written once, and only compared afterwards. */
  datatype Receipt = Receipt(checkpoint: Sha, commit: Sha)

  /** The push reaches the remote and is answered; reaches it but its answer is lost; or is lost itself. */
  datatype PushOutcome = Reported | Unreported | Lost

  /**
  What one call finds around it: the job's worktree (tree is None when the squash merge conflicts), the
  commits its log query lists, the renames its diffs detect, and how its push, its later look at the remote
  and its writes turn out.
  */
  datatype World = World(
    head: Sha, dirty: bool, published: bool, window: set<Sha>, renames: Renames,
    tree: Option<map<File, Content>>, mentions: set<Resource>, validated: bool,
    push: PushOutcome, reread: bool, receipted: bool, saved: bool)

  /** Raised after a push that landed. */
  predicate AfterPush(f: Failure) {
    f.Unverified? || f.Unreceipted? || f.Unsaved?
  }

  /** Raised before anything is pushed. */
  predicate BeforePush(f: Failure) {
    !AfterPush(f) && !f.PushFailed?
  }

  /** Steps of everyone else; the job lock keeps other attempts at this job out. */
  predicate Foreign(l: Label, j: JobId) {
    match l
    case Object(_) => true
    case Advance(_) => true
    case _ => l.job != j
  }

  lemma {:induction false} ExecLast(s: Sys, labels: seq<Label>, l: Label)
    ensures Exec(s, labels + [l]) == Apply(Exec(s, labels), l)
    decreases |labels|
  {
    if labels == [] {
      assert labels + [l] == [l] && [l][1..] == [];
    } else {
      assert (labels + [l])[1..] == labels[1..] + [l];
      ExecLast(Apply(s, labels[0]), labels[1..], l);
    }
  }

  lemma ForeignLeavesPhase(s: Sys, l: Label, j: JobId)
    requires Foreign(l, j)
    ensures At(Apply(s, l), j) == At(s, j) && s.commits <= Apply(s, l).commits && Apply(s, l).jobs == s.jobs
    ensures s.integrations <= Apply(s, l).integrations
    ensures forall k :: |s.integrations| <= k < |Apply(s, l).integrations| ==> Apply(s, l).integrations[k].job != j
  {
  }

  lemma ResourceLoop(cs: seq<Commit>, base: Sha, current: Sha, r: Resource, k: nat, seen: bool)
    requires k == |cs| && base != current
    requires seen <==> exists x :: 0 <= x < k && Between(cs, base, current, x) && r in cs[x].mentions
    ensures seen <==> ResourceSeenSince(cs, base, current, r)
  {
  }

  /** Whatever was pushed meanwhile was not pushed for this job. */
  predicate OthersOnly(before: seq<Integration>, after: seq<Integration>, j: JobId) {
    before <= after && forall k :: |before| <= k < |after| ==> after[k].job != j
  }

  predicate WasIntegrated(integrations: seq<Integration>, j: JobId, checkpoint: Sha) {
    exists k :: 0 <= k < |integrations| && integrations[k].job == j && integrations[k].checkpoint == checkpoint
  }

  /** Exactly one push landed for this job, and it is this one. */
  ghost predicate OneMore(before: seq<Integration>, after: seq<Integration>, j: JobId, i: Integration) {
    before <= after && i.job == j && exists k: nat :: OnlyAt(before, after, j, i, k)
  }

  predicate OnlyAt(before: seq<Integration>, after: seq<Integration>, j: JobId, i: Integration, k: nat) {
    && |before| <= k < |after| && after[k] == i
    && forall m :: |before| <= m < |after| && m != k ==> after[m].job != j
  }

  predicate IsIntegrated(integrations: seq<Integration>, j: JobId, checkpoint: Sha, c: Sha) {
    exists k :: 0 <= k < |integrations| && integrations[k].job == j && integrations[k].checkpoint == checkpoint
      && integrations[k].commit == c
  }

  predicate IsLanded(integrations: seq<Integration>, j: JobId, c: Sha) {
    exists k :: 0 <= k < |integrations| && integrations[k].job == j && integrations[k].commit == c
  }

  /** Metadata and receipts only ever claim integrations that landed. */
  ghost predicate RecordsOk(
    integrations: seq<Integration>, metadata: map<JobId, Metadata>, receipts: map<JobId, Receipt>)
  {
    && (forall j :: j in metadata && metadata[j].state.Integrated? ==> IsLanded(integrations, j, metadata[j].state.commit))
    && (forall j :: j in receipts ==> IsIntegrated(integrations, j, receipts[j].checkpoint, receipts[j].commit))
  }

  lemma RecordsKept(
    a: seq<Integration>, b: seq<Integration>, metadata: map<JobId, Metadata>, receipts: map<JobId, Receipt>)
    requires a <= b && RecordsOk(a, metadata, receipts)
    ensures RecordsOk(b, metadata, receipts)
  {
    forall j | j in metadata && metadata[j].state.Integrated?
      ensures IsLanded(b, j, metadata[j].state.commit)
    {
      var k :| 0 <= k < |a| && a[k].job == j && a[k].commit == metadata[j].state.commit;
      assert b[k] == a[k];
    }
    forall j | j in receipts
      ensures IsIntegrated(b, j, receipts[j].checkpoint, receipts[j].commit)
    {
      StillIntegrated(a, b, j, receipts[j].checkpoint, receipts[j].commit);
    }
  }

  lemma IntegratedBefore(a: seq<Integration>, b: seq<Integration>, j: JobId, checkpoint: Sha, c: Sha)
    requires OthersOnly(a, b, j) && IsIntegrated(b, j, checkpoint, c)
    ensures IsIntegrated(a, j, checkpoint, c)
  {
    var k :| 0 <= k < |b| && b[k].job == j && b[k].checkpoint == checkpoint && b[k].commit == c;
    assert a[k] == b[k];
  }

  /** What others push is not an integration of this job. */
  lemma SameIntegrations(a: seq<Integration>, b: seq<Integration>, j: JobId, checkpoint: Sha)
    requires OthersOnly(a, b, j)
    ensures forall x: Sha :: IsIntegrated(a, j, checkpoint, x) <==> IsIntegrated(b, j, checkpoint, x)
  {
    forall x: Sha
      ensures IsIntegrated(a, j, checkpoint, x) <==> IsIntegrated(b, j, checkpoint, x)
    {
      if IsIntegrated(a, j, checkpoint, x) {
        StillIntegrated(a, b, j, checkpoint, x);
      }
      if IsIntegrated(b, j, checkpoint, x) {
        IntegratedBefore(a, b, j, checkpoint, x);
      }
    }
  }

  lemma StillIntegrated(a: seq<Integration>, b: seq<Integration>, j: JobId, checkpoint: Sha, c: Sha)
    requires a <= b && IsIntegrated(a, j, checkpoint, c)
    ensures IsIntegrated(b, j, checkpoint, c)
  {
    var k :| 0 <= k < |a| && a[k].job == j && a[k].checkpoint == checkpoint && a[k].commit == c;
    assert b[k] == a[k];
  }

  predicate Recordable(receipts: map<JobId, Receipt>, j: JobId, checkpoint: Sha, c: Sha, written: bool) {
    if j in receipts then receipts[j] == Receipt(checkpoint, c) else written
  }

  lemma OthersPrefix(a: seq<Integration>, b: seq<Integration>, j: JobId)
    requires OthersOnly(a, b, j)
    ensures a <= b
  {
  }

  lemma OthersTwice(a: seq<Integration>, b: seq<Integration>, c: seq<Integration>, j: JobId)
    requires OthersOnly(a, b, j) && OthersOnly(b, c, j)
    ensures OthersOnly(a, c, j)
  {
    assert forall m :: |a| <= m < |b| ==> c[m] == b[m];
  }

  lemma OthersThenOne(a: seq<Integration>, b: seq<Integration>, c: seq<Integration>, j: JobId, i: Integration)
    requires OthersOnly(a, b, j) && i.job == j && c == b + [i]
    ensures OneMore(a, c, j, i)
  {
    assert forall m :: |a| <= m < |b| ==> c[m] == b[m];
    assert OnlyAt(a, c, j, i, |b|);
  }

  lemma OneThenOthers(a: seq<Integration>, b: seq<Integration>, c: seq<Integration>, j: JobId, i: Integration)
    requires OneMore(a, b, j, i) && OthersOnly(b, c, j)
    ensures OneMore(a, c, j, i)
  {
    var k: nat :| OnlyAt(a, b, j, i, k);
    assert forall m :: |a| <= m < |b| ==> c[m] == b[m];
    assert OnlyAt(a, c, j, i, k);
  }

  class Workspace {
    const others: nat -> seq<Label>
    const jobs: map<JobId, Job>
    ghost const start: Sys
    var clock: nat
    var commits: seq<Commit>
    var tip: Sha
    var phases: map<JobId, Phase>
    var integrations: seq<Integration>
    var metadata: map<JobId, Metadata>
    var receipts: map<JobId, Receipt>
    ghost var trace: seq<Label>

    function State(): Sys
      reads this
    {
      Sys(commits, tip, jobs, phases, integrations)
    }

    ghost predicate Valid()
      reads this
    {
      && Initial(start) && State() == Exec(start, trace) && HistoryInv(State())
      && RecordsOk(integrations, metadata, receipts)
    }

    constructor (s: Sys, m: map<JobId, Metadata>, o: nat -> seq<Label>)
      requires Initial(s) && forall j :: j in m ==> !m[j].state.Integrated?
      ensures Valid() && trace == [] && State() == s && metadata == m && receipts == map[]
    {
      others, start, clock, jobs := o, s, 0, s.jobs;
      commits, tip, phases, integrations, metadata, receipts, trace :=
        s.commits, s.tip, s.phases, s.integrations, m, map[], [];
    }

    lemma Step(l: Label)
      requires Valid()
      ensures Exec(start, trace + [l]) == Apply(State(), l) && HistoryInv(Apply(State(), l))
    {
      ExecLast(start, trace, l);
      WorkspaceIntegration.ApplyKeepsInv(State(), l);
    }

    /** From now on nobody else acts. */
    ghost predicate Alone()
      reads this`clock
    {
      forall k: nat :: clock <= k ==> others(k) == []
    }

    /** Others act; then the remote tip is read. */
    method Fetch(j: JobId) returns (current: Sha)
      requires Valid()
      modifies this`clock, this`commits, this`tip, this`phases, this`integrations, this`trace
      ensures Valid() && current == tip && At(State(), j) == old(At(State(), j))
      ensures old(commits) <= commits && OthersOnly(old(integrations), integrations, j)
      ensures old(Alone()) ==> Alone() && State() == old(State())
    {
      var labels := others(clock);
      clock := clock + 1;
      for k := 0 to |labels|
        invariant Valid() && At(State(), j) == old(At(State(), j))
        invariant old(commits) <= commits && OthersOnly(old(integrations), integrations, j)
        invariant clock == old(clock) + 1 && (labels == [] ==> State() == old(State()))
      {
        hide HistoryInv, Exec, Apply, RecordsOk;
        if Foreign(labels[k], j) {
          ghost var before := integrations;
          TakeForeign(j, labels[k]);
          OthersTwice(old(integrations), before, integrations, j);
        }
      }
      current := tip;
    }

    method TakeForeign(j: JobId, l: Label)
      requires Valid() && Foreign(l, j)
      modifies this`commits, this`tip, this`phases, this`integrations, this`trace
      ensures Valid() && At(State(), j) == old(At(State(), j))
      ensures old(commits) <= commits && OthersOnly(old(integrations), integrations, j)
    {
      Step(l);
      ForeignLeavesPhase(State(), l, j);
      hide HistoryInv, Exec, Apply, RecordsOk;
      var t := Apply(State(), l);
      RecordsKept(integrations, t.integrations, metadata, receipts);
      commits, tip, phases, integrations := t.commits, t.tip, t.phases, t.integrations;
      trace := trace + [l];
    }

    /** `_resource_seen_since`. */
    method ResourceSeen(base: Sha, current: Sha, r: Resource) returns (seen: bool)
      ensures seen <==> ResourceSeenSince(commits, base, current, r)
    {
      if base == current {
        return false;
      }
      seen := false;
      var k := 0;
      while k < |commits|
        invariant k <= |commits|
        invariant seen <==> exists x :: 0 <= x < k && Between(commits, base, current, x) && r in commits[x].mentions
      {
        if Between(commits, base, current, k) && r in commits[k].mentions {
          seen := true;
        }
        k := k + 1;
      }
      ResourceLoop(commits, base, current, r, k, seen);
    }

    /** `_find_existing_integration`: the canonical commits its log query lists that carry job and checkpoint. */
    method FindExisting(j: JobId, checkpoint: Sha, window: set<Sha>) returns (found: seq<Sha>)
      requires Valid()
      ensures NoDuplicates(found)
      ensures forall x :: x in found <==> x in window && x in Existing(State(), j, checkpoint)
    {
      found := [];
      for k := 0 to |commits|
        invariant NoDuplicates(found) && forall i :: 0 <= i < |found| ==> found[i] < k
        invariant forall x :: x in found <==> x < k && x in window && x in Existing(State(), j, checkpoint)
      {
        if k in window && commits[k].trailers == Some((j, checkpoint)) && Ancestor(commits, k, tip) {
          found := found + [k];
        }
      }
    }

    /** The search can only return one commit. */
    lemma FoundOnce(j: JobId, checkpoint: Sha, found: seq<Sha>)
      requires Valid() && NoDuplicates(found) && forall x :: x in found ==> x in Existing(State(), j, checkpoint)
      ensures |found| <= 1
    {
      if |found| > 1 {
        TwoDiffer(found);
        SearchFindsTheIntegration(start, trace, j, checkpoint);
      }
    }

    /** What the search makes of it: "multiple canonical integrations" is never raised. */
    method FindOne(j: JobId, checkpoint: Sha, window: set<Sha>) returns (r: Result<Option<Sha>, Failure>)
      requires Valid()
      ensures r.Ok?
      ensures r.value.Some? ==> r.value.value in window && IsIntegrated(integrations, j, checkpoint, r.value.value)
      ensures forall x: Sha :: x in window && IsIntegrated(integrations, j, checkpoint, x) ==> r.value == Some(x)
    {
      var found := FindExisting(j, checkpoint, window);
      r := if |found| > 1 then Err(Ambiguous) else if |found| == 1 then Ok(Some(found[0])) else Ok(None);
      FoundOnce(j, checkpoint, found);
      hide HistoryInv, Exec, Existing, RecordsOk;
      forall x: Sha
        ensures x in found <==> x in window && IsIntegrated(integrations, j, checkpoint, x)
      {
        ExistingIsIntegrated(State(), j, checkpoint, x);
        assert WorkspaceIntegration.Integrated(State(), j, checkpoint, x) <==> IsIntegrated(integrations, j, checkpoint, x);
      }
    }

    /** The search will come upon this integration of the checkpoint the metadata records. */
    ghost predicate Recoverable(j: JobId, x: Sha, window: set<Sha>)
      reads this
    {
      && j in jobs && j in metadata && !metadata[j].state.Integrated? && metadata[j].checkpoint.Some?
      && x in window && IsIntegrated(integrations, j, metadata[j].checkpoint.value, x)
    }

    /** Known, not integrated, and the search will find nothing. */
    ghost predicate Unfinished(j: JobId, window: set<Sha>)
      reads this
    {
      && j in jobs && j in metadata && !metadata[j].state.Integrated?
      && forall x: Sha :: !Recoverable(j, x, window)
    }

    /** The integration stands in the job's metadata, and in no other's, and in its receipt. */
    ghost predicate Recorded(was: map<JobId, Metadata>, j: JobId, checkpoint: Sha, c: Sha)
      reads this
    {
      && j in was
      && metadata == was[j := was[j].(state := JobState.Integrated(c), checkpoint := Some(checkpoint))]
      && j in receipts && receipts[j] == Receipt(checkpoint, c)
    }

    /** The checks between the first and the second fetch of the canonical tip. */
    method Screen(j: JobId, checkpoint: Sha, reconciled: Option<Sha>, renames: Renames)
      returns (failure: Option<Failure>)
      requires Valid() && j in jobs && At(State(), j) == Idle && checkpoint < |commits| && jobs[j].base < |commits|
      modifies this`phases, this`trace
      ensures Valid() && State() == ScreenStep(old(State()), j, checkpoint, reconciled, renames)
      ensures failure.None? <==> Admits(commits, jobs[j], tip, checkpoint, reconciled, renames)
      ensures failure.None? ==> At(State(), j) == Screened(tip, checkpoint, renames)
      ensures failure.Some? ==> phases == old(phases) && failure.value in {BaseLost, PolicyChanged, ReconcileRequired}
      ensures tip < |commits| && Listed.requires(commits, renames.job, jobs[j].base, checkpoint)
      ensures var policy := POLICY in Listed(commits, renames.job, jobs[j].base, checkpoint);
        && (failure == Some(BaseLost) <==> !Ancestor(commits, jobs[j].base, tip))
        && (failure == Some(PolicyChanged) <==> Ancestor(commits, jobs[j].base, tip) && policy)
        && (failure == Some(ReconcileRequired) <==> failure.Some? && Ancestor(commits, jobs[j].base, tip) && !policy)
    {
      Step(WorkspaceHistory.Screen(j, checkpoint, reconciled, renames));
      hide HistoryInv, Exec, Ancestor, ResourceSeenSince;
      trace := trace + [WorkspaceHistory.Screen(j, checkpoint, reconciled, renames)];
      var job := jobs[j];
      var current := tip;
      TipExists(State());
      if !Ancestor(commits, job.base, current) {
        return Some(BaseLost);
      }
      var changedJob := Listed(commits, renames.job, job.base, checkpoint);
      if POLICY in changedJob {
        return Some(PolicyChanged);
      }
      var overlap := changedJob * Listed(commits, renames.main, job.base, current);
      var seen := ResourceSeen(job.base, current, job.resource);
      var accepted := reconciled == Some(current);
      if accepted && !Ancestor(commits, current, checkpoint) {
        accepted := false;
      }
      if (overlap != {} || seen) && !accepted {
        return Some(ReconcileRequired);
      }
      phases := phases[j := Screened(current, checkpoint, renames)];
      return None;
    }

    method CommitCandidate(j: JobId, tree: map<File, Content>, mentions: set<Resource>)
      requires Valid() && j in jobs && At(State(), j).Screened?
      modifies this`commits, this`phases, this`trace
      ensures Valid() && At(State(), j) ==
        var p := old(At(State(), j)); Built(p.current, p.checkpoint, p.renames, old(|commits|))
      ensures var p := old(At(State(), j));
        commits == old(commits) + [Commit([p.current], tree, mentions + {jobs[j].resource}, Some((j, p.checkpoint)))]
    {
      Step(Build(j, tree, mentions));
      hide HistoryInv, Exec;
      var p := phases[j];
      var c := Commit([p.current], tree, mentions + {jobs[j].resource}, Some((j, p.checkpoint)));
      phases := phases[j := Built(p.current, p.checkpoint, p.renames, |commits|)];
      commits := commits + [c];
      trace := trace + [Build(j, tree, mentions)];
    }

    method GiveUp(j: JobId)
      requires Valid()
      modifies this`phases, this`trace
      ensures Valid() && At(State(), j) == Idle
    {
      Step(Stop(j));
      hide HistoryInv, Exec;
      phases := phases[j := Idle];
      trace := trace + [Stop(j)];
    }

    /** The push.  It lands exactly when it reaches the remote and is a fast-forward there. */
    method PushCandidate(j: JobId, outcome: PushOutcome) returns (reported: bool, ghost landed: bool)
      requires Valid() && At(State(), j).Built?
      modifies this`tip, this`phases, this`integrations, this`trace
      ensures Valid() && At(State(), j) == Idle
      ensures landed <==> outcome != Lost && Ancestor(commits, old(tip), old(At(State(), j)).candidate)
      ensures reported <==> landed && outcome == Reported
      ensures var p := old(At(State(), j));
        if landed then
          && tip == p.candidate && tip < |commits| && commits[tip].parents == [old(tip)]
          && integrations == old(integrations) + [Integration(j, p.current, p.checkpoint, p.renames, p.candidate)]
        else tip == old(tip) && integrations == old(integrations)
    {
      if outcome == Lost {
        GiveUp(j);
        return false, false;
      }
      Step(Push(j));
      CandidateParent(State(), j);
      hide HistoryInv, Exec, Ancestor, RecordsOk;
      trace := trace + [Push(j)];
      var p := phases[j];
      var accepted := Ancestor(commits, tip, p.candidate);
      phases := phases[j := Idle];
      if accepted {
        RecordsKept(integrations, integrations + [Integration(j, p.current, p.checkpoint, p.renames, p.candidate)], metadata, receipts);
        tip := p.candidate;
        integrations := integrations + [Integration(j, p.current, p.checkpoint, p.renames, p.candidate)];
      }
      return accepted && outcome == Reported, accepted;
    }

    /** `_write_terminal_receipt`: created exclusively, never replaced. */
    method WriteReceipt(j: JobId, checkpoint: Sha, c: Sha, written: bool) returns (ok: bool)
      requires Valid() && IsIntegrated(integrations, j, checkpoint, c)
      modifies this`receipts
      ensures Valid()
      ensures ok <==> if j in old(receipts) then old(receipts)[j] == Receipt(checkpoint, c) else written
      ensures receipts == if ok then old(receipts)[j := Receipt(checkpoint, c)] else old(receipts)
    {
      hide HistoryInv, Exec, IsIntegrated, IsLanded;
      if j in receipts {
        return receipts[j] == Receipt(checkpoint, c);
      }
      if !written {
        return false;
      }
      receipts := receipts[j := Receipt(checkpoint, c)];
      return true;
    }

    method SaveIntegrated(j: JobId, c: Sha, checkpoint: Sha)
      requires Valid() && j in metadata && IsIntegrated(integrations, j, checkpoint, c)
      modifies this`metadata
      ensures Valid()
      ensures metadata == old(metadata)[j :=
        old(metadata)[j].(state := JobState.Integrated(c), checkpoint := Some(checkpoint))]
    {
      hide HistoryInv, Exec;
      assert IsLanded(integrations, j, c);
      metadata := metadata[j := metadata[j].(state := JobState.Integrated(c), checkpoint := Some(checkpoint))];
    }

    method MarkConflicted(j: JobId)
      requires Valid() && j in metadata
      modifies this`metadata
      ensures Valid() && metadata == old(metadata)[j := old(metadata)[j].(state := Conflicted)]
    {
      hide HistoryInv, Exec, IsIntegrated, IsLanded;
      metadata := metadata[j := metadata[j].(state := Conflicted)];
    }

    /** Receipt, then metadata; nothing is recorded before the receipt stands. */
    method Record(j: JobId, checkpoint: Sha, c: Sha, w: World) returns (failure: Option<Failure>)
      requires Valid() && j in metadata && IsIntegrated(integrations, j, checkpoint, c)
      modifies this`receipts, this`metadata
      ensures Valid()
      ensures failure == if !Recordable(old(receipts), j, checkpoint, c, w.receipted) then Some(Unreceipted)
        else if !w.saved then Some(Unsaved) else None
      ensures forall i :: i != j ==> (i in receipts <==> i in old(receipts)) && (i in receipts ==> receipts[i] == old(receipts)[i])
      ensures failure != Some(Unreceipted) ==> j in receipts && receipts[j] == Receipt(checkpoint, c)
      ensures failure.Some? ==> metadata == old(metadata)
      ensures failure.None? ==> metadata == old(metadata)[j :=
        old(metadata)[j].(state := JobState.Integrated(c), checkpoint := Some(checkpoint))]
    {
      hide HistoryInv, Exec, IsIntegrated, RecordsOk;
      var ok := WriteReceipt(j, checkpoint, c, w.receipted);
      if !ok {
        return Some(Unreceipted);
      }
      if !w.saved {
        return Some(Unsaved);
      }
      SaveIntegrated(j, c, checkpoint);
      return None;
    }

    /**
    One call.  It adds at most one integration of its job, of a checkpoint never integrated before.  An
    error raised before the push leaves none; one raised after it leaves exactly one, and the metadata
    as it was, so that the search of the next call recovers it (`Recoverable`), or the checks refuse it.
    */
    method IntegrateJob(j: JobId, w: World) returns (r: Result<Sha, Failure>, ghost landed: Option<Integration>)
      requires Valid() && At(State(), j) == Idle && w.head < |commits| && (j in jobs ==> jobs[j].base < |commits|)
      modifies this
      ensures Valid() && At(State(), j) == Idle
      ensures Outcome(old(integrations), integrations, j, w, landed)
      ensures r.Ok? ==>
        IsLanded(integrations, j, r.value) && j in metadata && metadata[j].state == JobState.Integrated(r.value)
      ensures r.Ok? && landed.Some? ==> r.value == landed.value.commit
      ensures r.Err? ==> ErrorTells(r.error, w, landed) && r.error != Ambiguous
      ensures r.Err? && landed.Some? ==> metadata == old(metadata)
      ensures r == Err(UnknownJob) <==> j !in jobs || j !in old(metadata)
      ensures j in jobs && j in old(metadata) && old(metadata)[j].state.Integrated? ==>
        r == Ok(old(metadata)[j].state.commit) && State() == old(State()) && metadata == old(metadata)
      ensures landed.Some? ==> j in old(metadata) && old(metadata)[j].state == Ready
      ensures old(Unfinished(j, w.window)) ==>
        && (r == Err(NotReady) <==> old(metadata)[j].state != Ready)
        && (r == Err(Dirty) <==> old(metadata)[j].state == Ready && w.dirty)
        && (r == Err(Unpublished) <==> old(metadata)[j].state == Ready && !w.dirty && !w.published)
        && (r.Ok? ==> Recorded(old(metadata), j, w.head, r.value))
      ensures old(Unfinished(j, w.window) && Alone()) && old(metadata)[j].state == Ready && !w.dirty && w.published ==>
        Attempted(old(State()), State(), old(metadata)[j], old(receipts), metadata, j, w, r, landed)
      ensures WasIntegrated(old(integrations), j, w.head) ==> landed.None? && (r.Err? ==> BeforePush(r.error))
      ensures forall i :: i in old(metadata) && i != j ==> i in metadata && metadata[i] == old(metadata)[i]
      ensures forall x: Sha :: old(Recoverable(j, x, w.window)) ==>
        && landed.None?
        && r == if Recordable(old(receipts), j, old(metadata)[j].checkpoint.value, x, w.receipted) && w.saved then Ok(x)
                else Err(Unrecovered)
    {
      hide HistoryInv, Exec, Ancestor, Admits, ScreenStep, Apply, Initial, Existing, IsIntegrated, RecordsOk, WasIntegrated,
        OneMore, Attempted, IsLanded;
      landed := None;
      if j !in jobs || j !in metadata {
        return Err(UnknownJob), None;
      }
      var meta := metadata[j];
      if meta.state.Integrated? {
        MetadataLanded(integrations, metadata, receipts, j);
        return Ok(meta.state.commit), None;
      }
      ghost var before := integrations;
      var recovered := Recover(j, w);
      if recovered.Some? {
        return recovered.value, None;
      }
      ghost var fetched := integrations;
      OthersPrefix(before, fetched, j);
      WasIntegratedStays(before, fetched, j, w.head);
      r, landed := Integrate(j, w);
      OutcomeLater(before, fetched, integrations, j, w, landed);
    }

    /** The search for an integration whose record was lost; what it finds is recorded. */
    method Recover(j: JobId, w: World) returns (r: Option<Result<Sha, Failure>>)
      requires Valid() && At(State(), j) == Idle && j in jobs && j in metadata && !metadata[j].state.Integrated?
      modifies this
      ensures Valid() && At(State(), j) == Idle && OthersOnly(old(integrations), integrations, j)
      ensures old(commits) <= commits && (old(Alone()) ==> Alone() && State() == old(State()))
      ensures r.None? <==> old(Unfinished(j, w.window))
      ensures r.None? ==> metadata == old(metadata) && receipts == old(receipts)
      ensures forall i :: i in old(metadata) && i != j ==> i in metadata && metadata[i] == old(metadata)[i]
      ensures r.Some? ==> r.value.Ok? || r.value == Err(Unrecovered)
      ensures r.Some? && r.value.Ok? ==>
        && j in metadata && IsLanded(integrations, j, r.value.value)
        && metadata[j].state == JobState.Integrated(r.value.value)
      ensures r.Some? && r.value.Err? ==> metadata == old(metadata)
      ensures forall x: Sha :: old(Recoverable(j, x, w.window)) ==>
        r == Some(if Recordable(old(receipts), j, old(metadata)[j].checkpoint.value, x, w.receipted) && w.saved then Ok(x)
                  else Err(Unrecovered))
    {
      hide HistoryInv, Exec, Apply, Initial, Existing, IsIntegrated, RecordsOk;
      var meta := metadata[j];
      ghost var before := integrations;
      var current := Fetch(j);
      if meta.checkpoint.None? {
        return None;
      }
      SameIntegrations(before, integrations, j, meta.checkpoint.value);
      var found := FindOne(j, meta.checkpoint.value, w.window);
      if found.value.None? {
        return None;
      }
      assert old(Recoverable(j, found.value.value, w.window));
      var failure := Record(j, meta.checkpoint.value, found.value.value, w);
      IntegratedLanded(integrations, j, meta.checkpoint.value, found.value.value);
      return Some(if failure.Some? then Err(Unrecovered) else Ok(found.value.value));
    }

    /** The attempt itself, once the search has found no earlier integration of the recorded checkpoint. */
    method Integrate(j: JobId, w: World) returns (r: Result<Sha, Failure>, ghost landed: Option<Integration>)
      requires Valid() && At(State(), j) == Idle && w.head < |commits|
      requires j in jobs && jobs[j].base < |commits| && j in metadata && !metadata[j].state.Integrated?
      modifies this
      ensures Valid() && At(State(), j) == Idle
      ensures Outcome(old(integrations), integrations, j, w, landed)
      ensures r.Ok? ==> landed.Some? && r.value == landed.value.commit
      ensures r.Ok? ==>
        IsLanded(integrations, j, r.value) && j in metadata && metadata[j].state == JobState.Integrated(r.value)
      ensures r.Err? ==> ErrorTells(r.error, w, landed) && r.error !in {UnknownJob, Ambiguous, Unrecovered}
      ensures r.Err? && landed.Some? ==> metadata == old(metadata)
      ensures r.Ok? ==> Recorded(old(metadata), j, w.head, r.value)
      ensures r == Err(NotReady) <==> old(metadata)[j].state != Ready
      ensures r == Err(Dirty) <==> old(metadata)[j].state == Ready && w.dirty
      ensures r == Err(Unpublished) <==> old(metadata)[j].state == Ready && !w.dirty && !w.published
      ensures old(Alone()) && old(metadata)[j].state == Ready && !w.dirty && w.published ==>
        Attempted(old(State()), State(), old(metadata)[j], old(receipts), metadata, j, w, r, landed)
      ensures WasIntegrated(old(integrations), j, w.head) ==> landed.None? && (r.Err? ==> BeforePush(r.error))
      ensures forall i :: i in old(metadata) && i != j ==> i in metadata && metadata[i] == old(metadata)[i]
    {
      hide HistoryInv, Exec, Ancestor, Admits, ScreenStep, Apply, Initial, Existing, IsIntegrated, RecordsOk, WasIntegrated;
      var meta := metadata[j];
      if meta.state != Ready {
        return Err(NotReady), None;
      }
      if w.dirty {
        return Err(Dirty), None;
      }
      if !w.published {
        return Err(Unpublished), None;
      }
      r, landed := Attempt(j, w);
    }

    /** The checks against the fetched tip, the squash merge and its validation. */
    method Attempt(j: JobId, w: World) returns (r: Result<Sha, Failure>, ghost landed: Option<Integration>)
      requires Valid() && At(State(), j) == Idle && w.head < |commits|
      requires j in jobs && jobs[j].base < |commits| && j in metadata && metadata[j].state == Ready
      modifies this
      ensures Valid() && At(State(), j) == Idle
      ensures Outcome(old(integrations), integrations, j, w, landed)
      ensures r.Ok? ==> landed.Some? && r.value == landed.value.commit
      ensures r.Ok? ==>
        IsLanded(integrations, j, r.value) && j in metadata && metadata[j].state == JobState.Integrated(r.value)
      ensures r.Err? ==> ErrorTells(r.error, w, landed) && Tried(r.error)
      ensures r.Err? && landed.Some? ==> metadata == old(metadata)
      ensures r.Ok? ==> Recorded(old(metadata), j, w.head, r.value)
      ensures WasIntegrated(old(integrations), j, w.head) ==> landed.None? && (r.Err? ==> BeforePush(r.error))
      ensures forall i :: i in old(metadata) && i != j ==> i in metadata && metadata[i] == old(metadata)[i]
      ensures old(Alone()) ==>
        Attempted(old(State()), State(), old(metadata)[j], old(receipts), metadata, j, w, r, landed)
    {
      hide HistoryInv, Exec, Ancestor, Admits, ScreenStep, Apply, Initial, Existing, IsIntegrated, IsLanded, RecordsOk,
        WasIntegrated, OneMore, Listed, Delivered, Published, Attempted, Merged, OthersOnly;
      var meta := metadata[j];
      var current := Fetch(j);
      ghost var screened := State();
      var failure := Screen(j, w.head, meta.reconciled, w.renames);
      if failure.Some? {
        if failure.value == ReconcileRequired {
          MarkConflicted(j);
        }
        RefusedIsAttempted(screened, State(), meta, old(receipts), metadata, j, w, failure.value);
        return Err(failure.value), None;
      }
      AdmittedIsClear(State(), j, w, meta.reconciled);
      NotIntegratedYet(State(), j, w.head, meta.reconciled, w.renames);
      OthersPrefix(old(integrations), integrations, j);
      WasIntegratedStays(old(integrations), integrations, j, w.head);
      ghost var merging := State();
      r, landed := MergeAndPublish(j, w);
      MergedIsAttempted(screened, merging, State(), meta, old(receipts), metadata, j, w, r, landed);
      OutcomeLater(old(integrations), screened.integrations, integrations, j, w, landed);
    }

    method MergeAndPublish(j: JobId, w: World) returns (r: Result<Sha, Failure>, ghost landed: Option<Integration>)
      requires Valid() && At(State(), j) == Screened(tip, w.head, w.renames) && j in jobs && j in metadata
      requires metadata[j].state == Ready && !WasIntegrated(integrations, j, w.head)
      modifies this
      ensures Valid() && At(State(), j) == Idle
      ensures Outcome(old(integrations), integrations, j, w, landed)
      ensures r.Ok? ==> landed.Some? && r.value == landed.value.commit
      ensures r.Ok? ==>
        IsLanded(integrations, j, r.value) && j in metadata && metadata[j].state == JobState.Integrated(r.value)
      ensures r.Err? ==> ErrorTells(r.error, w, landed) && Tried(r.error)
      ensures r.Err? ==> r.error !in {BaseLost, PolicyChanged, ReconcileRequired}
      ensures r.Err? && landed.Some? ==> metadata == old(metadata)
      ensures r.Ok? ==> Recorded(old(metadata), j, w.head, r.value)
      ensures forall i :: i in old(metadata) && i != j ==> i in metadata && metadata[i] == old(metadata)[i]
      ensures r == Err(MergeConflict) <==> w.tree.None?
      ensures r == Err(MergeConflict) ==> j in metadata && metadata[j] == old(metadata)[j].(state := Conflicted)
      ensures r == Err(ValidationFailed) <==> w.tree.Some? && !w.validated
      ensures old(Alone()) ==> Merged(old(State()), State(), old(receipts), j, w, r, landed)
    {
      hide HistoryInv, Exec, Ancestor, Admits, Apply, Initial, Existing, IsIntegrated, IsLanded, RecordsOk, WasIntegrated,
        OneMore, Published, Delivered;
      if w.tree.None? {
        MarkConflicted(j);
        GiveUp(j);
        return Err(MergeConflict), None;
      }
      if !w.validated {
        GiveUp(j);
        return Err(ValidationFailed), None;
      }
      r, landed := Publish(j, w);
    }

    /** Commit, look once more whether the target moved, push, and record. */
    method Publish(j: JobId, w: World) returns (r: Result<Sha, Failure>, ghost landed: Option<Integration>)
      requires Valid() && At(State(), j) == Screened(tip, w.head, w.renames) && w.tree.Some? && j in jobs && j in metadata
      requires !WasIntegrated(integrations, j, w.head)
      modifies this
      ensures Valid() && At(State(), j) == Idle
      ensures Outcome(old(integrations), integrations, j, w, landed)
      ensures r.Ok? ==> landed.Some? && r.value == landed.value.commit
      ensures r.Ok? ==>
        IsLanded(integrations, j, r.value) && j in metadata && metadata[j].state == JobState.Integrated(r.value)
      ensures r.Err? ==> ErrorTells(r.error, w, landed) && r.error in {TargetMoved, PushFailed, Unverified, Unreceipted, Unsaved}
      ensures r.Err? ==> metadata == old(metadata)
      ensures r.Ok? ==> Recorded(old(metadata), j, w.head, r.value)
      ensures old(Alone()) ==>
        && Delivered(r, w, Recordable(old(receipts), j, w.head, old(|commits|), w.receipted))
        && (r.Ok? ==> Published(old(State()), State(), j, w, r.value, landed))
      ensures forall i :: i in old(metadata) && i != j ==> i in metadata && metadata[i] == old(metadata)[i]
    {
      hide HistoryInv, Exec, Ancestor, Apply, Initial, Existing, IsIntegrated, IsLanded, RecordsOk, OneMore, WasIntegrated, OthersOnly;
      var current := tip;
      TipExists(State());
      CommitCandidate(j, w.tree.value, w.mentions);
      var latest := Fetch(j);
      if latest != current {
        GiveUp(j);
        return Err(TargetMoved), None;
      }
      ghost var fetched := integrations;
      var _ := Fetch(j);
      OthersTwice(old(integrations), fetched, integrations, j);
      ParentIsAncestor(commits, current, old(|commits|));
      r, landed := PushAndSettle(old(integrations), j, w);
    }

    /** Everything from the push on. */
    method PushAndSettle(ghost start: seq<Integration>, j: JobId, w: World)
      returns (r: Result<Sha, Failure>, ghost landed: Option<Integration>)
      requires Valid() && At(State(), j).Built? && At(State(), j).checkpoint == w.head && j in metadata
      requires At(State(), j).renames == w.renames
      requires OthersOnly(start, integrations, j) && !WasIntegrated(start, j, w.head)
      modifies this
      ensures Valid() && At(State(), j) == Idle
      ensures Outcome(start, integrations, j, w, landed)
      ensures r.Ok? ==> landed.Some? && r.value == landed.value.commit
      ensures r.Ok? ==>
        IsLanded(integrations, j, r.value) && j in metadata && metadata[j].state == JobState.Integrated(r.value)
      ensures r.Err? ==> ErrorTells(r.error, w, landed) && r.error in {TargetMoved, PushFailed, Unverified, Unreceipted, Unsaved}
      ensures r == Err(PushFailed) ==>
        (landed.Some? <==> w.push == Unreported && Ancestor(old(commits), old(tip), old(At(State(), j)).candidate))
      ensures r == Err(PushFailed) <==>
        w.push != Reported || !Ancestor(old(commits), old(tip), old(At(State(), j)).candidate)
      ensures r.Err? ==> metadata == old(metadata)
      ensures r.Ok? ==> Recorded(old(metadata), j, w.head, r.value)
      ensures var p := old(At(State(), j));
        old(Alone()) && Ancestor(old(commits), old(tip), p.candidate) ==>
          && Delivered(r, w, Recordable(old(receipts), j, w.head, p.candidate, w.receipted))
          && commits == old(commits)
          && (r.Ok? ==> tip == r.value && landed == Some(Integration(j, p.current, w.head, w.renames, p.candidate)))
      ensures forall i :: i in old(metadata) && i != j ==> i in metadata && metadata[i] == old(metadata)[i]
    {
      hide HistoryInv, Exec, Ancestor, Apply, Initial, Existing, IsIntegrated, IsLanded, RecordsOk, OneMore, WasIntegrated, OthersOnly;
      ghost var before := integrations;
      ghost var i := Integration(j, phases[j].current, w.head, phases[j].renames, phases[j].candidate);
      var reported, accepted := PushCandidate(j, w.push);
      if accepted {
        OthersThenOne(start, before, integrations, j, i);
      }
      landed := if accepted then Some(i) else None;
      if !reported {
        return Err(PushFailed), landed;
      }
      r := Settle(start, j, w, i);
    }

    /** Look at the remote again, then record; another push in between is enough to raise. */
    method Settle(ghost start: seq<Integration>, j: JobId, w: World, ghost i: Integration) returns (r: Result<Sha, Failure>)
      requires Valid() && At(State(), j) == Idle && j in metadata
      requires OneMore(start, integrations, j, i) && i.checkpoint == w.head && tip == i.commit
      modifies this
      ensures Valid() && At(State(), j) == Idle && OneMore(start, integrations, j, i)
      ensures r.Ok? ==> r.value == i.commit
      ensures r.Ok? ==>
        IsLanded(integrations, j, r.value) && j in metadata && metadata[j].state == JobState.Integrated(r.value)
      ensures r.Err? ==> AfterPush(r.error) && metadata == old(metadata)
      ensures r.Ok? ==> Recorded(old(metadata), j, w.head, r.value)
      ensures old(Alone()) && w.push == Reported ==>
        State() == old(State()) && Delivered(r, w, Recordable(old(receipts), j, w.head, i.commit, w.receipted))
      ensures forall i :: i in old(metadata) && i != j ==> i in metadata && metadata[i] == old(metadata)[i]
    {
      hide HistoryInv, Exec, IsIntegrated, RecordsOk, OneMore, OthersOnly;
      var candidate := tip;
      ghost var pushed := integrations;
      var actual := Fetch(j);
      OneThenOthers(start, pushed, integrations, j, i);
      if !w.reread || actual != candidate {
        return Err(Unverified);
      }
      OneMoreIntegrated(start, integrations, j, i);
      var failure := Record(j, w.head, candidate, w);
      IntegratedLanded(integrations, j, w.head, candidate);
      return if failure.Some? then Err(failure.value) else Ok(candidate);
    }
  }

  lemma MetadataLanded(
    integrations: seq<Integration>, metadata: map<JobId, Metadata>, receipts: map<JobId, Receipt>, j: JobId)
    requires RecordsOk(integrations, metadata, receipts) && j in metadata && metadata[j].state.Integrated?
    ensures IsLanded(integrations, j, metadata[j].state.commit)
  {
  }

  lemma IntegratedLanded(integrations: seq<Integration>, j: JobId, checkpoint: Sha, c: Sha)
    requires IsIntegrated(integrations, j, checkpoint, c)
    ensures IsLanded(integrations, j, c)
  {
  }

  lemma ParentIsAncestor(cs: seq<Commit>, a: Sha, b: Sha)
    requires b < |cs| && cs[b].parents == [a] && a < b
    ensures Ancestor(cs, a, b)
  {
    assert cs[b].parents[0] == a && Ancestor(cs, a, a);
  }

  // ---------------------------------------------------------------- how a call ends when nobody else acts

  /** The push and what follows it: the first thing that goes wrong decides. */
  predicate Delivered(r: Result<Sha, Failure>, w: World, recordable: bool) {
    && (r == Err(PushFailed) <==> w.push != Reported)
    && (r == Err(Unverified) <==> w.push == Reported && !w.reread)
    && (r == Err(Unreceipted) <==> w.push == Reported && w.reread && !recordable)
    && (r == Err(Unsaved) <==> w.push == Reported && w.reread && recordable && !w.saved)
    && (r.Ok? <==> w.push == Reported && w.reread && recordable && w.saved)
  }

  /** The new tip is the one new commit: the merged tree on the old tip, under the job's resource and trailers. */
  predicate Published(was: Sys, s: Sys, j: JobId, w: World, c: Sha, landed: Option<Integration>) {
    && w.tree.Some? && j in was.jobs
    && c == |was.commits| && s.tip == c
    && s.commits == was.commits
        + [Commit([was.tip], w.tree.value, w.mentions + {was.jobs[j].resource}, Some((j, w.head)))]
    && landed == Some(Integration(j, was.tip, w.head, w.renames, c))
  }

  /** An attempt of a ready, clean and published job: refused by its first cause, or delivered. */
  predicate Attempted(
    was: Sys, s: Sys, meta: Metadata, receipts: map<JobId, Receipt>, metadata: map<JobId, Metadata>, j: JobId,
    w: World, r: Result<Sha, Failure>, landed: Option<Integration>)
  {
    && j in was.jobs && was.tip < |was.commits| && w.head < |was.commits| && was.jobs[j].base < |was.commits|
    && var job := was.jobs[j];
      var based := Ancestor(was.commits, job.base, was.tip);
      var policy := POLICY in Listed(was.commits, w.renames.job, job.base, w.head);
      var admitted := Admits(was.commits, job, was.tip, w.head, meta.reconciled, w.renames);
      && (r == Err(BaseLost) <==> !based)
      && (r == Err(PolicyChanged) <==> based && policy)
      && (r == Err(ReconcileRequired) <==> based && !policy && !admitted)
      && (r == Err(MergeConflict) <==> admitted && w.tree.None?)
      && (r == Err(ValidationFailed) <==> admitted && w.tree.Some? && !w.validated)
      && (admitted && w.tree.Some? && w.validated ==>
        Delivered(r, w, Recordable(receipts, j, w.head, |was.commits|, w.receipted)))
      && (r.Ok? ==> admitted && w.tree.Some? && w.validated && Published(was, s, j, w, r.value, landed))
      && (r == Err(ReconcileRequired) || r == Err(MergeConflict) ==>
        j in metadata && metadata[j] == meta.(state := Conflicted))
  }

  ghost predicate Merged(
    was: Sys, s: Sys, receipts: map<JobId, Receipt>, j: JobId, w: World, r: Result<Sha, Failure>,
    landed: Option<Integration>)
  {
    w.tree.Some? && w.validated ==>
      && Delivered(r, w, Recordable(receipts, j, w.head, |was.commits|, w.receipted))
      && (r.Ok? ==> Published(was, s, j, w, r.value, landed))
  }

  lemma RefusedIsAttempted(
    was: Sys, s: Sys, meta: Metadata, receipts: map<JobId, Receipt>, metadata: map<JobId, Metadata>, j: JobId,
    w: World, f: Failure)
    requires j in was.jobs && was.tip < |was.commits| && w.head < |was.commits| && was.jobs[j].base < |was.commits|
    requires f in {BaseLost, PolicyChanged, ReconcileRequired}
    requires !Admits(was.commits, was.jobs[j], was.tip, w.head, meta.reconciled, w.renames)
    requires var policy := POLICY in Listed(was.commits, w.renames.job, was.jobs[j].base, w.head);
      var based := Ancestor(was.commits, was.jobs[j].base, was.tip);
      && (f == BaseLost <==> !based) && (f == PolicyChanged <==> based && policy)
      && (f == ReconcileRequired <==> based && !policy)
    requires f == ReconcileRequired ==> j in metadata && metadata[j] == meta.(state := Conflicted)
    ensures Attempted(was, s, meta, receipts, metadata, j, w, Err(f), None)
  {
    hide Admits, Ancestor, Listed, Delivered, Published;
  }

  lemma MergedIsAttempted(
    was: Sys, mid: Sys, s: Sys, meta: Metadata, receipts: map<JobId, Receipt>, metadata: map<JobId, Metadata>, j: JobId,
    w: World, r: Result<Sha, Failure>, landed: Option<Integration>)
    requires j in was.jobs && w.head < |was.commits| && was.jobs[j].base < |was.commits|
    requires mid.commits == was.commits && mid.tip == was.tip && mid.jobs == was.jobs
    requires Admits(was.commits, was.jobs[j], was.tip, w.head, meta.reconciled, w.renames)
    requires r.Err? ==> r.error !in {BaseLost, PolicyChanged, ReconcileRequired}
    requires r == Err(MergeConflict) <==> w.tree.None?
    requires r == Err(MergeConflict) ==> j in metadata && metadata[j] == meta.(state := Conflicted)
    requires r == Err(ValidationFailed) <==> w.tree.Some? && !w.validated
    ensures Merged(mid, s, receipts, j, w, r, landed) ==>
      Attempted(was, s, meta, receipts, metadata, j, w, r, landed)
  {
    AdmittedIsClear(was, j, w, meta.reconciled);
    hide Admits, Ancestor, Listed, Delivered;
  }

  /** What a call did for its job: nothing, or one integration of this checkpoint, its first. */
  ghost predicate Outcome(
    before: seq<Integration>, after: seq<Integration>, j: JobId, w: World, landed: Option<Integration>)
  {
    match landed
    case None => OthersOnly(before, after, j)
    case Some(i) =>
      OneMore(before, after, j, i) && i.checkpoint == w.head && i.renames == w.renames && !WasIntegrated(before, j, w.head)
  }

  /** Raised by the attempt itself, not by the questions before it. */
  predicate Tried(f: Failure) {
    f !in {UnknownJob, Ambiguous, NotReady, Dirty, Unpublished, Unrecovered}
  }

  lemma AdmittedIsClear(s: Sys, j: JobId, w: World, reconciled: Option<Sha>)
    requires j in s.jobs && Admits(s.commits, s.jobs[j], s.tip, w.head, reconciled, w.renames)
    ensures s.tip < |s.commits| && w.head < |s.commits| && s.jobs[j].base < |s.commits|
    ensures Ancestor(s.commits, s.jobs[j].base, s.tip)
    ensures POLICY !in Listed(s.commits, w.renames.job, s.jobs[j].base, w.head)
  {
  }

  /** Which errors leave an integration behind. */
  predicate ErrorTells(f: Failure, w: World, landed: Option<Integration>) {
    && (AfterPush(f) ==> landed.Some?)
    && (BeforePush(f) ==> landed.None?)
    && (f.PushFailed? && landed.Some? ==> w.push == Unreported)
  }

  lemma OutcomeLater(
    a: seq<Integration>, b: seq<Integration>, c: seq<Integration>, j: JobId, w: World, landed: Option<Integration>)
    requires OthersOnly(a, b, j) && Outcome(b, c, j, w, landed)
    ensures Outcome(a, c, j, w, landed)
  {
    assert forall m :: |a| <= m < |b| ==> c[m] == b[m];
    if landed.Some? {
      var k: nat :| OnlyAt(b, c, j, landed.value, k);
      assert OnlyAt(a, c, j, landed.value, k);
      assert forall m :: 0 <= m < |a| ==> a[m] == b[m];
    }
  }

  lemma OneMoreIntegrated(before: seq<Integration>, after: seq<Integration>, j: JobId, i: Integration)
    requires OneMore(before, after, j, i)
    ensures IsIntegrated(after, j, i.checkpoint, i.commit)
  {
    var k: nat :| OnlyAt(before, after, j, i, k);
  }

  lemma WasIntegratedStays(a: seq<Integration>, b: seq<Integration>, j: JobId, checkpoint: Sha)
    requires a <= b
    ensures WasIntegrated(a, j, checkpoint) ==> WasIntegrated(b, j, checkpoint)
  {
    if WasIntegrated(a, j, checkpoint) {
      var k :| 0 <= k < |a| && a[k].job == j && a[k].checkpoint == checkpoint;
      assert b[k] == a[k];
    }
  }

  lemma NotIntegratedYet(s: Sys, j: JobId, checkpoint: Sha, reconciled: Option<Sha>, renames: Renames)
    requires HistoryInv(s) && j in s.jobs && Admits(s.commits, s.jobs[j], s.tip, checkpoint, reconciled, renames)
    ensures !WasIntegrated(s.integrations, j, checkpoint)
  {
    if WasIntegrated(s.integrations, j, checkpoint) {
      var k :| 0 <= k < |s.integrations| && s.integrations[k].job == j && s.integrations[k].checkpoint == checkpoint;
      IntegratedNeverAdmitted(s, k, reconciled, renames);
    }
  }

  lemma TipExists(s: Sys)
    requires HistoryInv(s)
    ensures s.tip < |s.commits|
  {
  }

  lemma TwoDiffer(found: seq<Sha>)
    requires NoDuplicates(found) && |found| > 1
    ensures exists x, y :: x in found && y in found && x != y
  {
    assert found[0] in found && found[1] in found && found[0] != found[1];
  }

  /** A candidate that can be pushed sits directly on the tip it replaces. */
  lemma CandidateParent(s: Sys, j: JobId)
    requires HistoryInv(s) && At(s, j).Built?
    ensures At(s, j).candidate < |s.commits|
    ensures Ancestor(s.commits, s.tip, At(s, j).candidate) ==> s.commits[At(s, j).candidate].parents == [s.tip]
  {
    assert PhaseOk(s, j, s.phases[j]);
    if Ancestor(s.commits, s.tip, At(s, j).candidate) {
      LandedOnTip(s, j);
    }
  }
}
