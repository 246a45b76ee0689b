/**
The watcher's durable pipeline for each mailbox request: run, sign and persist, upload, mark, delete.
Uploads and deletes may succeed, fail, succeed without saying so, or land later; the watcher may crash
between any two steps; anyone may write requests and tamper with the remote results.  A signature covers
the file name, and only the watcher signs.
*/
module MailboxReplay {
  import opened Prelude

  type File = nat

  /** run is the number of the execution the result reports. */
  datatype Answer = Signed(file: File, run: nat) | Forged(content: nat)

  datatype Outcome = Done | Lost | Unreported | Late

  /** Where the watcher is with a request it owns; lost in a crash. */
  datatype Stage = Chosen | Ran(result: Answer) | Durable(result: Answer) | Acknowledged | Marked

  /** runs, persisted and reached are ghost records: executions, first durable results, uploads that landed. */
  datatype Sys = Sys(
    inbox: set<File>, remote: map<File, Answer>, lateUploads: set<(File, Answer)>, lateDeletes: set<File>,
    local: map<File, Answer>, markers: set<File>, stages: map<File, Stage>,
    runs: seq<File>, persisted: map<File, Answer>, reached: set<Answer>)

  const INITIAL := Sys({}, map[], {}, {}, map[], {}, map[], [], map[], {})

  datatype Label =
    | Choose(file: File)
    | Skip(file: File)
    | Run(file: File)
    | Persist(file: File)
    | Upload(file: File, outcome: Outcome)
    | Look(file: File, tooFresh: bool)
    | Mark(file: File)
    | Delete(file: File, outcome: Outcome)
    | Retire(file: File, outcome: Outcome)
    | Prune(file: File)
    | Reconcile(file: File)
    | Crash
    | Request(file: File)
    | Tamper(file: File, put: Option<Answer>)
    | LandUpload(file: File, result: Answer)
    | LandDelete(file: File)

  predicate Authentic(file: File, r: Answer) {
    r.Signed? && r.file == file
  }

  /** Still in the inbox, not marked, and not being handled. */
  predicate Waiting(s: Sys, f: File) {
    f in s.inbox && f !in s.markers && f !in s.stages
  }

  function Enter(s: Sys, f: File, stage: Stage): Sys {
    s.(stages := s.stages[f := stage])
  }

  function Leave(s: Sys, f: File): Sys {
    s.(stages := s.stages - {f})
  }

  function Land(s: Sys, f: File, r: Answer): Sys {
    s.(remote := s.remote[f := r], reached := s.reached + {r})
  }

  function Deleted(s: Sys, f: File, outcome: Outcome): Sys {
    match outcome
    case Lost => s
    case Late => s.(lateDeletes := s.lateDeletes + {f})
    case _ => s.(inbox := s.inbox - {f})
  }

  function Uploaded(s: Sys, f: File, r: Answer, outcome: Outcome): Sys {
    match outcome
    case Done => Enter(Land(s, f, r), f, Acknowledged)
    case Unreported => Leave(Land(s, f, r), f)
    case Lost => Leave(s, f)
    case Late => Leave(s.(lateUploads := s.lateUploads + {(f, r)}), f)
  }

  /** A waiting request with a durable result is republished, never run. */
  function Looked(s: Sys, f: File, tooFresh: bool): Sys {
    if !Waiting(s, f) || f !in s.local then s
    else if f in s.remote then if Authentic(f, s.remote[f]) then Enter(s, f, Acknowledged) else s
    else if tooFresh then s
    else Enter(s, f, Durable(s.local[f]))
  }

  predicate Is(s: Sys, f: File, stage: Stage) {
    f in s.stages && s.stages[f] == stage
  }

  function Persisted(s: Sys, f: File, r: Answer): Sys {
    s.(local := s.local[f := r], persisted := s.persisted[f := r], stages := s.stages[f := Durable(r)])
  }

  function Apply(s: Sys, l: Label): Sys {
    match l
    case Choose(f) => if Waiting(s, f) && f !in s.local then Enter(s, f, Chosen) else s
    case Skip(f) => if Is(s, f, Chosen) then Leave(s, f) else s
    case Run(f) =>
      if Is(s, f, Chosen) then Enter(s.(runs := s.runs + [f]), f, Ran(Signed(f, |s.runs|))) else s
    case Persist(f) => if f in s.stages && s.stages[f].Ran? then Persisted(s, f, s.stages[f].result) else s
    case Upload(f, outcome) =>
      if f in s.stages && s.stages[f].Durable? then Uploaded(s, f, s.stages[f].result, outcome) else s
    case Look(f, tooFresh) => Looked(s, f, tooFresh)
    case Mark(f) => if Is(s, f, Acknowledged) then Enter(s.(markers := s.markers + {f}), f, Marked) else s
    case Delete(f, outcome) => if Is(s, f, Marked) then Leave(Deleted(s, f, outcome), f) else s
    case Retire(f, outcome) =>
      if f in s.inbox && f in s.markers && f !in s.stages then Deleted(s, f, outcome) else s
    case Prune(f) => if f in s.markers then s.(local := s.local - {f}) else s
    case Reconcile(f) =>
      if Waiting(s, f) && f in s.remote && Authentic(f, s.remote[f]) then s.(markers := s.markers + {f}) else s
    case Crash => s.(stages := map[])
    case Request(f) => s.(inbox := s.inbox + {f})
    case Tamper(f, None) => s.(remote := s.remote - {f})
    case Tamper(f, Some(r)) => if r.Forged? || r in s.reached then s.(remote := s.remote[f := r]) else s
    case LandUpload(f, r) => if (f, r) in s.lateUploads then Land(s, f, r) else s
    case LandDelete(f) => if f in s.lateDeletes then s.(inbox := s.inbox - {f}) else s
  }

  function Exec(s: Sys, labels: seq<Label>): Sys
    decreases |labels|
  {
    if labels == [] then s else Exec(Apply(s, labels[0]), labels[1..])
  }

  // ---------------------------------------------------------------- invariant

  predicate Kept(s: Sys, f: File, r: Answer) {
    f in s.persisted && s.persisted[f] == r && Authentic(f, r)
  }

  ghost predicate LocalInv(s: Sys) {
    && (forall f :: f in s.local ==> Kept(s, f, s.local[f]))
    && (forall f :: f in s.persisted ==> Authentic(f, s.persisted[f]) && (f in s.local || f in s.markers))
    && (forall f :: f in s.markers ==> f in s.persisted && s.persisted[f] in s.reached)
    && s.lateDeletes <= s.markers
  }

  ghost predicate RemoteInv(s: Sys) {
    && (forall r :: r in s.reached ==> r.Signed? && Kept(s, r.file, r))
    && (forall f :: f in s.remote && s.remote[f].Signed? ==> s.remote[f] in s.reached)
    && (forall u :: u in s.lateUploads ==> Kept(s, u.0, u.1))
  }

  predicate StageOk(s: Sys, f: File, stage: Stage) {
    match stage
    case Chosen => f !in s.persisted
    case Ran(r) => f !in s.persisted && Authentic(f, r)
    case Durable(r) => Kept(s, f, r)
    case Acknowledged => f in s.persisted && s.persisted[f] in s.reached
    case Marked => f in s.markers
  }

  ghost predicate ReplayInv(s: Sys) {
    LocalInv(s) && RemoteInv(s) && forall f :: f in s.stages ==> StageOk(s, f, s.stages[f])
  }

  predicate Local(l: Label) {
    l.Persist? || l.Mark? || l.Prune? || l.Reconcile?
  }

  predicate Remote(l: Label) {
    l.Upload? || l.LandUpload? || l.Tamper?
  }

  lemma PersistKeepsInv(s: Sys, f: File, r: Answer)
    requires ReplayInv(s) && Is(s, f, Ran(r))
    ensures ReplayInv(Persisted(s, f, r))
  {
    var t := Persisted(s, f, r);
    assert StageOk(s, f, s.stages[f]);
    assert forall a :: a in s.reached ==> a.file != f;
    forall g | g in t.stages
      ensures StageOk(t, g, t.stages[g])
    {
      assert g in s.stages && StageOk(s, g, s.stages[g]);
    }
  }

  /** Marking is allowed once the durable result has reached the results directory. */
  lemma MarkKeepsInv(s: Sys, f: File, stages: map<File, Stage>)
    requires ReplayInv(s) && f in s.persisted && s.persisted[f] in s.reached
    requires stages == s.stages || stages == s.stages[f := Marked]
    ensures ReplayInv(s.(markers := s.markers + {f}, stages := stages))
  {
    forall g | g in stages
      ensures StageOk(s.(markers := s.markers + {f}, stages := stages), g, stages[g])
    {
      assert g in s.stages ==> StageOk(s, g, s.stages[g]);
    }
  }

  lemma LocalStepKeepsInv(s: Sys, l: Label)
    requires ReplayInv(s) && Local(l)
    ensures ReplayInv(Apply(s, l))
  {
    match l
    case Persist(f) =>
      if f in s.stages && s.stages[f].Ran? {
        PersistKeepsInv(s, f, s.stages[f].result);
      }
    case Mark(f) =>
      if Is(s, f, Acknowledged) {
        assert StageOk(s, f, s.stages[f]);
        MarkKeepsInv(s, f, s.stages[f := Marked]);
      }
    case Reconcile(f) =>
      if Waiting(s, f) && f in s.remote && Authentic(f, s.remote[f]) {
        assert s.remote[f] in s.reached && Kept(s, f, s.remote[f]);
        MarkKeepsInv(s, f, s.stages);
      }
    case Prune(f) =>
      if f in s.markers {
        PruneKeepsInv(s, f);
      }
  }

  lemma PruneKeepsInv(s: Sys, f: File)
    requires ReplayInv(s) && f in s.markers
    ensures ReplayInv(s.(local := s.local - {f}))
  {
    forall g | g in s.stages
      ensures StageOk(s.(local := s.local - {f}), g, s.stages[g])
    {
      assert StageOk(s, g, s.stages[g]);
    }
  }

  predicate SameRecords(s: Sys, t: Sys) {
    t.local == s.local && t.markers == s.markers && t.persisted == s.persisted
  }

  /** Stages survive a step that touches no durable record, whatever becomes visible remotely. */
  lemma StagesCarryOver(s: Sys, t: Sys)
    requires ReplayInv(s) && SameRecords(s, t) && s.reached <= t.reached
    requires forall f :: f in t.stages && !(f in s.stages && t.stages[f] == s.stages[f]) ==> StageOk(t, f, t.stages[f])
    ensures forall f :: f in t.stages ==> StageOk(t, f, t.stages[f])
  {
    forall f | f in t.stages
      ensures StageOk(t, f, t.stages[f])
    {
      if f in s.stages && t.stages[f] == s.stages[f] {
        assert StageOk(s, f, s.stages[f]);
      }
    }
  }

  lemma LandKeepsInv(s: Sys, f: File, r: Answer)
    requires ReplayInv(s) && Kept(s, f, r)
    ensures ReplayInv(Land(s, f, r))
  {
    StagesCarryOver(s, Land(s, f, r));
  }

  lemma StageChange(s: Sys, t: Sys)
    requires ReplayInv(s) && t == s.(stages := t.stages, runs := t.runs)
    requires forall f :: f in t.stages && !(f in s.stages && t.stages[f] == s.stages[f]) ==> StageOk(t, f, t.stages[f])
    ensures ReplayInv(t)
  {
    StagesCarryOver(s, t);
  }

  lemma UploadKeepsInv(s: Sys, f: File, outcome: Outcome)
    requires ReplayInv(s) && f in s.stages && s.stages[f].Durable?
    ensures ReplayInv(Uploaded(s, f, s.stages[f].result, outcome))
  {
    var r := s.stages[f].result;
    assert StageOk(s, f, s.stages[f]);
    LandKeepsInv(s, f, r);
    match outcome
    case Done => StageChange(Land(s, f, r), Uploaded(s, f, r, outcome));
    case Unreported => StageChange(Land(s, f, r), Uploaded(s, f, r, outcome));
    case Lost => StageChange(s, Uploaded(s, f, r, outcome));
    case Late =>
      var u := s.(lateUploads := s.lateUploads + {(f, r)});
      StagesCarryOver(s, u);
      StageChange(u, Uploaded(s, f, r, outcome));
  }

  lemma RemoteStepKeepsInv(s: Sys, l: Label)
    requires ReplayInv(s) && Remote(l)
    ensures ReplayInv(Apply(s, l))
  {
    match l
    case Upload(f, outcome) =>
      if f in s.stages && s.stages[f].Durable? {
        UploadKeepsInv(s, f, outcome);
      }
    case LandUpload(f, r) =>
      if (f, r) in s.lateUploads {
        LandKeepsInv(s, f, r);
      }
    case Tamper(f, put) => StagesCarryOver(s, Apply(s, l));
  }

  lemma DeletedKeepsInv(s: Sys, f: File, outcome: Outcome)
    requires ReplayInv(s) && f in s.markers
    ensures ReplayInv(Deleted(s, f, outcome))
  {
    StagesCarryOver(s, Deleted(s, f, outcome));
  }

  lemma StageStepKeepsInv(s: Sys, l: Label)
    requires ReplayInv(s) && (l.Choose? || l.Skip? || l.Run? || l.Look? || l.Crash?)
    ensures ReplayInv(Apply(s, l))
  {
    var t := Apply(s, l);
    if t != s && !l.Crash? {
      assert l.file in s.stages ==> StageOk(s, l.file, s.stages[l.file]);
      if l.Look? {
        assert Kept(s, l.file, s.local[l.file]);
      }
    }
    StageChange(s, t);
  }

  lemma OtherStepKeepsInv(s: Sys, l: Label)
    requires ReplayInv(s) && !Local(l) && !Remote(l)
    ensures ReplayInv(Apply(s, l))
  {
    match l
    case Delete(f, outcome) =>
      if Is(s, f, Marked) {
        assert StageOk(s, f, s.stages[f]);
        DeletedKeepsInv(s, f, outcome);
        StageChange(Deleted(s, f, outcome), Apply(s, l));
      }
    case Retire(f, outcome) =>
      if f in s.markers {
        DeletedKeepsInv(s, f, outcome);
      }
    case Request(f) => StagesCarryOver(s, Apply(s, l));
    case LandDelete(f) => StagesCarryOver(s, Apply(s, l));
    case _ => StageStepKeepsInv(s, l);
  }

  lemma ApplyKeepsInv(s: Sys, l: Label)
    requires ReplayInv(s)
    ensures ReplayInv(Apply(s, l))
  {
    if Local(l) {
      LocalStepKeepsInv(s, l);
    } else if Remote(l) {
      RemoteStepKeepsInv(s, l);
    } else {
      OtherStepKeepsInv(s, l);
    }
  }

  lemma {:induction false} ExecKeepsInv(s: Sys, labels: seq<Label>)
    requires ReplayInv(s)
    ensures ReplayInv(Exec(s, labels))
    decreases |labels|
  {
    if labels != [] {
      ApplyKeepsInv(s, labels[0]);
      ExecKeepsInv(Apply(s, labels[0]), labels[1..]);
    }
  }

  // ---------------------------------------------------------------- results

  /** A request object disappears only once its marker is durable, whoever's step it is. */
  lemma DeletedOnlyAfterMarker(labels: seq<Label>, l: Label, f: File)
    requires f in Exec(INITIAL, labels).inbox && f !in Apply(Exec(INITIAL, labels), l).inbox
    ensures f in Exec(INITIAL, labels).markers
  {
    ExecKeepsInv(INITIAL, labels);
    hide Exec;
    DeletionFacts(Exec(INITIAL, labels), l, f);
  }

  /** Which steps alone change the inbox, and which the local results. */
  lemma Untouched(s: Sys, l: Label)
    ensures l.Delete? || l.Retire? || l.LandDelete? || l.Request? || Apply(s, l).inbox == s.inbox
    ensures l.Persist? || l.Prune? || Apply(s, l).local == s.local
  {
  }

  lemma DeletionFacts(s: Sys, l: Label, f: File)
    requires ReplayInv(s) && f in s.inbox && f !in Apply(s, l).inbox
    ensures f in s.markers
  {
    Untouched(s, l);
    hide RemoteInv, Uploaded, Looked;
    if l.Delete? && f in s.stages {
      assert StageOk(s, f, s.stages[f]);
    }
  }

  /** A local result disappears, or changes, only once its request is marked. */
  lemma PrunedOnlyWhenMarked(labels: seq<Label>, l: Label, f: File)
    requires f in Exec(INITIAL, labels).local
    requires f !in Apply(Exec(INITIAL, labels), l).local || Apply(Exec(INITIAL, labels), l).local[f] != Exec(INITIAL, labels).local[f]
    ensures f in Exec(INITIAL, labels).markers
  {
    ExecKeepsInv(INITIAL, labels);
    hide Exec;
    PruningFacts(Exec(INITIAL, labels), l, f);
  }

  lemma PruningFacts(s: Sys, l: Label, f: File)
    requires ReplayInv(s) && f in s.local
    requires f !in Apply(s, l).local || Apply(s, l).local[f] != s.local[f]
    ensures f in s.markers
  {
    Untouched(s, l);
    hide Uploaded, Looked, RemoteInv;
    if f in s.stages {
      assert Kept(s, f, s.local[f]);
      StagesOfPersisted(s, f);
    }
    hide ReplayInv, Uploaded, Looked;
  }

  /**
  A marker exists only for a request whose one durable signed result has reached the results directory;
  an authentic remote result, at any time, is that same result.
  */
  lemma MarkedMeansResultReached(labels: seq<Label>, f: File)
    ensures var t := Exec(INITIAL, labels);
      && (f in t.markers ==> f in t.persisted && t.persisted[f] in t.reached && Authentic(f, t.persisted[f]))
      && (f in t.remote && Authentic(f, t.remote[f]) ==> f in t.persisted && t.remote[f] == t.persisted[f])
  {
    ExecKeepsInv(INITIAL, labels);
    var t := Exec(INITIAL, labels);
    assert f in t.remote && t.remote[f].Signed? ==> t.remote[f] in t.reached;
  }

  function Runs(runs: seq<File>, f: File): nat {
    if runs == [] then 0 else Runs(runs[..|runs| - 1], f) + if runs[|runs| - 1] == f then 1 else 0
  }

  lemma StagesOfPersisted(s: Sys, f: File)
    requires ReplayInv(s) && f in s.persisted && f in s.stages
    ensures s.stages[f] != Chosen && !s.stages[f].Ran?
  {
    assert StageOk(s, f, s.stages[f]);
  }

  lemma PersistedNeverRuns(s: Sys, l: Label, f: File)
    requires ReplayInv(s) && f in s.persisted
    ensures f in Apply(s, l).persisted && Apply(s, l).persisted[f] == s.persisted[f]
    ensures Runs(Apply(s, l).runs, f) == Runs(s.runs, f)
  {
    if f in s.stages {
      StagesOfPersisted(s, f);
    }
    hide ReplayInv;
    if l.Run? {
      assert Is(s, l.file, Chosen) ==> (s.runs + [l.file])[..|s.runs|] == s.runs;
    } else if !l.Persist? {
      OnlyPersistPersists(s, l);
      hide Apply;
    }
  }

  lemma OnlyPersistPersists(s: Sys, l: Label)
    requires !l.Persist? && !l.Run?
    ensures Apply(s, l).persisted == s.persisted && Apply(s, l).runs == s.runs
  {
  }

  /** A request with a durable signed result is never run again, and the result it has is final. */
  lemma {:induction false} DurableNeverRunsAgain(s: Sys, labels: seq<Label>, f: File)
    requires ReplayInv(s) && f in s.persisted
    ensures var t := Exec(s, labels);
      f in t.persisted && t.persisted[f] == s.persisted[f] && Runs(t.runs, f) == Runs(s.runs, f)
    decreases |labels|
  {
    if labels != [] {
      PersistedNeverRuns(s, labels[0], f);
      ApplyKeepsInv(s, labels[0]);
      DurableNeverRunsAgain(Apply(s, labels[0]), labels[1..], f);
    }
  }

  /** Without a crash, a request is run once: a second run needs a crash or a stop before the result was durable. */
  predicate Undisturbed(labels: seq<Label>) {
    forall i :: 0 <= i < |labels| ==> !labels[i].Crash?
  }

  predicate HasRun(s: Sys, f: File) {
    f in s.persisted || (f in s.stages && s.stages[f].Ran?)
  }

  ghost predicate RunsMatch(s: Sys, f: File) {
    Runs(s.runs, f) == if HasRun(s, f) then 1 else 0
  }

  lemma UploadKeepsRuns(s: Sys, g: File, outcome: Outcome, f: File)
    requires g in s.stages && s.stages[g].Durable?
    ensures var t := Uploaded(s, g, s.stages[g].result, outcome); HasRun(t, f) == HasRun(s, f) && t.runs == s.runs
  {
  }

  lemma QuietKeepsRuns(s: Sys, l: Label, f: File)
    requires !l.Crash? && !l.Run?
    ensures HasRun(Apply(s, l), f) == HasRun(s, f) && Apply(s, l).runs == s.runs
  {
    if l.Upload? {
      if l.file in s.stages && s.stages[l.file].Durable? {
        UploadKeepsRuns(s, l.file, l.outcome, f);
      }
      hide Uploaded;
    }
  }

  /** Only a crash forgets a run that is not durable. */
  lemma RunsMatchStep(s: Sys, l: Label, f: File)
    requires ReplayInv(s) && RunsMatch(s, f) && !l.Crash?
    ensures RunsMatch(Apply(s, l), f)
  {
    if l.Run? {
      if Is(s, l.file, Chosen) {
        RunIsFirst(s, l.file);
        RunCounts(s, l.file, f);
      }
    } else {
      QuietKeepsRuns(s, l, f);
      hide Apply, HasRun;
    }
  }

  lemma RunCounts(s: Sys, g: File, f: File)
    requires RunsMatch(s, f) && Is(s, g, Chosen) && g !in s.persisted
    ensures RunsMatch(Apply(s, Run(g)), f)
  {
    assert (s.runs + [g])[..|s.runs|] == s.runs;
  }

  lemma RunIsFirst(s: Sys, f: File)
    requires ReplayInv(s) && Is(s, f, Chosen)
    ensures f !in s.persisted
  {
    assert StageOk(s, f, s.stages[f]);
  }

  lemma {:induction false} RunOnceWithoutCrash(s: Sys, labels: seq<Label>, f: File)
    requires ReplayInv(s) && RunsMatch(s, f) && Undisturbed(labels)
    ensures RunsMatch(Exec(s, labels), f) && Runs(Exec(s, labels).runs, f) <= 1
    decreases |labels|
  {
    if labels != [] {
      RunsMatchStep(s, labels[0], f);
      ApplyKeepsInv(s, labels[0]);
      RunOnceWithoutCrash(Apply(s, labels[0]), labels[1..], f);
    }
  }
}
