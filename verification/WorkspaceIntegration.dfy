/**
What integration keeps over any run: every landed integration was disjoint or reconciled against its own
parent, and no checkpoint of a job is integrated twice.
*/
module WorkspaceIntegration {
  import opened Prelude
  import opened WorkspaceHistory

  predicate Safe(cs: seq<Commit>, job: Job, parent: Sha, checkpoint: Sha, renames: Renames) {
    && parent < |cs| && checkpoint < |cs| && job.base < |cs| && Ancestor(cs, job.base, parent)
    && POLICY !in Listed(cs, renames.job, job.base, checkpoint)
    && (Disjoint(cs, job, parent, checkpoint, renames) || Ancestor(cs, parent, checkpoint))
  }

  /** The commit object of an attempt, written after its parent and its checkpoint. */
  predicate Candidate(s: Sys, j: JobId, current: Sha, checkpoint: Sha, candidate: Sha) {
    && j in s.jobs && candidate < |s.commits| && current < candidate && checkpoint < candidate
    && s.commits[candidate].parents == [current] && s.commits[candidate].trailers == Some((j, checkpoint))
    && s.jobs[j].resource in s.commits[candidate].mentions
  }

  predicate IntegrationOk(s: Sys, i: Integration) {
    && Candidate(s, i.job, i.parent, i.checkpoint, i.commit)
    && Safe(s.commits, s.jobs[i.job], i.parent, i.checkpoint, i.renames)
    && Ancestor(s.commits, i.commit, s.tip)
  }

  predicate PhaseOk(s: Sys, j: JobId, p: Phase) {
    match p
    case Idle => true
    case Screened(current, checkpoint, renames) =>
      j in s.jobs && Safe(s.commits, s.jobs[j], current, checkpoint, renames) && Ancestor(s.commits, current, s.tip)
    case Built(current, checkpoint, renames, candidate) =>
      && Candidate(s, j, current, checkpoint, candidate) && Safe(s.commits, s.jobs[j], current, checkpoint, renames)
      && Ancestor(s.commits, current, s.tip) && !Ancestor(s.commits, candidate, s.tip)
  }

  predicate Recorded(s: Sys, x: Sha) {
    exists k :: 0 <= k < |s.integrations| && s.integrations[k].commit == x
  }

  /** Canonical history carries the bridge's trailers only on recorded integrations. */
  predicate TrailersOk(s: Sys) {
    forall x :: 0 <= x < |s.commits| && s.commits[x].trailers.Some? && Ancestor(s.commits, x, s.tip) ==> Recorded(s, x)
  }

  /** Each integration sits on canonical history that contains all earlier ones. */
  predicate Chained(s: Sys) {
    forall k, m :: 0 <= k < m < |s.integrations| ==>
      Ancestor(s.commits, s.integrations[k].commit, s.integrations[m].parent)
  }

  predicate IntegrationsOk(s: Sys) {
    forall k :: 0 <= k < |s.integrations| ==> IntegrationOk(s, s.integrations[k])
  }

  predicate PhasesOk(s: Sys) {
    forall j :: j in s.phases ==> PhaseOk(s, j, s.phases[j])
  }

  predicate HistoryInv(s: Sys) {
    Acyclic(s.commits) && s.tip < |s.commits| && IntegrationsOk(s) && Chained(s) && TrailersOk(s) && PhasesOk(s)
  }

  /** Only new objects, and a tip that moved forward. */
  predicate Forward(s: Sys, t: Sys) {
    && s.commits <= t.commits && Acyclic(t.commits) && t.jobs == s.jobs && t.tip < |t.commits|
    && s.tip < |s.commits| && Ancestor(t.commits, s.tip, t.tip)
  }

  lemma SafeStable(cs: seq<Commit>, ds: seq<Commit>, job: Job, parent: Sha, checkpoint: Sha, renames: Renames)
    requires cs <= ds && Acyclic(ds) && Safe(cs, job, parent, checkpoint, renames)
    ensures Safe(ds, job, parent, checkpoint, renames)
  {
    ListedStable(cs, ds, renames.job, job.base, checkpoint);
    hide Disjoint, Listed;
    AncestorStable(cs, ds, job.base, parent);
    AncestorStable(cs, ds, parent, checkpoint);
    DisjointStable(cs, ds, job, parent, checkpoint, renames);
  }

  lemma StillCanonical(s: Sys, t: Sys, x: Sha)
    requires Forward(s, t) && Ancestor(s.commits, x, s.tip)
    ensures Ancestor(t.commits, x, t.tip)
  {
    AncestorStable(s.commits, t.commits, x, s.tip);
    AncestorTransitive(t.commits, x, s.tip, t.tip);
  }

  lemma IntegrationForward(s: Sys, t: Sys, i: Integration)
    requires Forward(s, t) && IntegrationOk(s, i)
    ensures IntegrationOk(t, i)
  {
    SafeStable(s.commits, t.commits, s.jobs[i.job], i.parent, i.checkpoint, i.renames);
    StillCanonical(s, t, i.commit);
    hide Safe, Ancestor;
  }

  lemma ChainedForward(s: Sys, t: Sys)
    requires Forward(s, t) && Chained(s) && IntegrationsOk(s) && t.integrations == s.integrations
    ensures Chained(t)
  {
    forall k, m | 0 <= k < m < |t.integrations|
      ensures Ancestor(t.commits, t.integrations[k].commit, t.integrations[m].parent)
    {
      assert IntegrationOk(s, s.integrations[m]);
      AncestorStable(s.commits, t.commits, s.integrations[k].commit, s.integrations[m].parent);
    }
  }

  /** A phase carries over when its candidate has not become canonical. */
  lemma PhaseForward(s: Sys, t: Sys, j: JobId, p: Phase)
    requires Forward(s, t) && PhaseOk(s, j, p)
    requires p.Built? && p.candidate < |s.commits| ==>
      (Ancestor(t.commits, p.candidate, t.tip) ==> Ancestor(s.commits, p.candidate, s.tip))
    ensures PhaseOk(t, j, p)
  {
    if p != Idle {
      SafeStable(s.commits, t.commits, s.jobs[j], p.current, p.checkpoint, p.renames);
      StillCanonical(s, t, p.current);
      hide Safe, Ancestor;
    }
  }

  /** A step that neither moves the tip nor records anything. */
  lemma StillStep(s: Sys, t: Sys)
    requires HistoryInv(s) && Forward(s, t) && t.tip == s.tip && t.integrations == s.integrations
    requires forall j :: j in t.phases && !(j in s.phases && t.phases[j] == s.phases[j]) ==> PhaseOk(t, j, t.phases[j])
    ensures HistoryInv(t)
  {
    hide Safe, Ancestor;
    forall k | 0 <= k < |t.integrations|
      ensures IntegrationOk(t, t.integrations[k])
    {
      IntegrationForward(s, t, s.integrations[k]);
    }
    ChainedForward(s, t);
    forall j | j in t.phases
      ensures PhaseOk(t, j, t.phases[j])
    {
      if j in s.phases && t.phases[j] == s.phases[j] {
        if s.phases[j].Built? {
          AncestorStable(s.commits, t.commits, s.phases[j].candidate, s.tip);
        }
        PhaseForward(s, t, j, s.phases[j]);
      }
    }
    forall x: Sha | x < |t.commits| && t.commits[x].trailers.Some? && Ancestor(t.commits, x, t.tip)
      ensures Recorded(t, x)
    {
      AncestorOrder(t.commits, x, t.tip);
      AncestorStable(s.commits, t.commits, x, s.tip);
      assert Recorded(s, x);
    }
  }

  lemma AdmitsIsSafe(
    cs: seq<Commit>, job: Job, current: Sha, checkpoint: Sha, reconciled: Option<Sha>, renames: Renames)
    requires Admits(cs, job, current, checkpoint, reconciled, renames)
    ensures Safe(cs, job, current, checkpoint, renames)
  {
  }

  lemma ScreenKeepsInv(s: Sys, j: JobId, checkpoint: Sha, reconciled: Option<Sha>, renames: Renames)
    requires HistoryInv(s)
    ensures HistoryInv(ScreenStep(s, j, checkpoint, reconciled, renames))
  {
    var t := ScreenStep(s, j, checkpoint, reconciled, renames);
    if t != s {
      AdmitsIsSafe(s.commits, s.jobs[j], s.tip, checkpoint, reconciled, renames);
      hide Admits, Safe;
      StillStep(s, t);
    }
  }

  lemma BuildKeepsInv(s: Sys, j: JobId, tree: map<File, Content>, mentions: set<Resource>)
    requires HistoryInv(s)
    ensures HistoryInv(BuildStep(s, j, tree, mentions))
  {
    var t := BuildStep(s, j, tree, mentions);
    if t != s {
      var current, checkpoint := At(s, j).current, At(s, j).checkpoint;
      assert PhaseOk(s, j, s.phases[j]);
      assert s.commits <= t.commits && Acyclic(t.commits);
      SafeStable(s.commits, t.commits, s.jobs[j], current, checkpoint, At(s, j).renames);
      AncestorStable(s.commits, t.commits, current, s.tip);
      if Ancestor(t.commits, |s.commits|, t.tip) {
        AncestorOrder(t.commits, |s.commits|, t.tip);
      }
      hide Safe;
      assert PhaseOk(t, j, t.phases[j]);
      StillStep(s, t);
    }
  }

  lemma ObjectKeepsInv(s: Sys, c: Commit)
    requires HistoryInv(s) && Ordinary(s, c)
    ensures HistoryInv(s.(commits := s.commits + [c]))
  {
    hide Safe;
    StillStep(s, s.(commits := s.commits + [c]));
  }

  lemma AdvanceKeepsInv(s: Sys, c: Sha)
    requires HistoryInv(s) && MayAdvance(s, c)
    ensures HistoryInv(s.(tip := c))
  {
    var t := s.(tip := c);
    hide Safe;
    forall k | 0 <= k < |t.integrations|
      ensures IntegrationOk(t, t.integrations[k])
    {
      IntegrationForward(s, t, s.integrations[k]);
    }
    ChainedForward(s, t);
    forall j | j in t.phases
      ensures PhaseOk(t, j, t.phases[j])
    {
      PhaseForward(s, t, j, s.phases[j]);
    }
    forall x: Sha | x < |t.commits| && t.commits[x].trailers.Some? && Ancestor(t.commits, x, t.tip)
      ensures Recorded(t, x)
    {
      assert Recorded(s, x);
    }
  }

  /** A push that lands was built on exactly the tip it replaces. */
  lemma LandedOnTip(s: Sys, j: JobId)
    requires HistoryInv(s) && At(s, j).Built? && Ancestor(s.commits, s.tip, At(s, j).candidate)
    ensures At(s, j).current == s.tip
  {
    var p := At(s, j);
    assert PhaseOk(s, j, s.phases[j]);
    OnlyParent(s.commits, s.tip, p.candidate, p.current);
    AncestorOrder(s.commits, s.tip, p.current);
    AncestorOrder(s.commits, p.current, s.tip);
  }

  /** What the pushed candidate adds to canonical history is itself alone. */
  lemma OnlyCandidateAdded(cs: seq<Commit>, x: Sha, current: Sha, candidate: Sha)
    requires candidate < |cs| && cs[candidate].parents == [current] && current < candidate
    ensures Ancestor(cs, x, candidate) <==> x == candidate || Ancestor(cs, x, current)
  {
    assert cs[candidate].parents[0] == current;
    if Ancestor(cs, x, candidate) && x != candidate {
      OnlyParent(cs, x, candidate, current);
    }
  }

  lemma PushedPhases(s: Sys, t: Sys, j: JobId)
    requires HistoryInv(s) && At(s, j).Built? && Ancestor(s.commits, s.tip, At(s, j).candidate)
    requires t == PushStep(s, j) && Forward(s, t)
    ensures PhasesOk(t)
  {
    var p := At(s, j);
    LandedOnTip(s, j);
    assert PhaseOk(s, j, s.phases[j]);
    hide Safe, Ancestor;
    forall i | i in t.phases
      ensures PhaseOk(t, i, t.phases[i])
    {
      if i != j {
        assert PhaseOk(s, i, s.phases[i]);
        if s.phases[i].Built? {
          OnlyCandidateAdded(s.commits, s.phases[i].candidate, p.current, p.candidate);
        }
        PhaseForward(s, t, i, s.phases[i]);
      }
    }
  }

  lemma PushedTrailers(s: Sys, t: Sys, j: JobId)
    requires HistoryInv(s) && At(s, j).Built? && Ancestor(s.commits, s.tip, At(s, j).candidate)
    requires t == PushStep(s, j)
    ensures TrailersOk(t)
  {
    var p := At(s, j);
    LandedOnTip(s, j);
    assert PhaseOk(s, j, s.phases[j]);
    assert t.integrations[|s.integrations|].commit == p.candidate;
    hide Safe;
    forall x: Sha | x < |t.commits| && t.commits[x].trailers.Some? && Ancestor(t.commits, x, t.tip)
      ensures Recorded(t, x)
    {
      OnlyCandidateAdded(s.commits, x, p.current, p.candidate);
      if x != p.candidate {
        assert Recorded(s, x);
        var k :| 0 <= k < |s.integrations| && s.integrations[k].commit == x;
        assert t.integrations[k] == s.integrations[k];
      }
    }
  }

  lemma PushedIntegrations(s: Sys, t: Sys, j: JobId)
    requires HistoryInv(s) && At(s, j).Built? && Ancestor(s.commits, s.tip, At(s, j).candidate)
    requires t == PushStep(s, j) && Forward(s, t)
    ensures IntegrationsOk(t) && Chained(t)
  {
    var p := At(s, j);
    LandedOnTip(s, j);
    assert PhaseOk(s, j, s.phases[j]);
    forall k | 0 <= k < |t.integrations|
      ensures IntegrationOk(t, t.integrations[k])
    {
      if k < |s.integrations| {
        IntegrationForward(s, t, s.integrations[k]);
      }
    }
    forall k, m | 0 <= k < m < |t.integrations|
      ensures Ancestor(t.commits, t.integrations[k].commit, t.integrations[m].parent)
    {
      assert IntegrationOk(s, s.integrations[k]);
    }
  }

  lemma PushKeepsInv(s: Sys, j: JobId)
    requires HistoryInv(s)
    ensures HistoryInv(PushStep(s, j))
  {
    var t := PushStep(s, j);
    if At(s, j).Built? && Ancestor(s.commits, s.tip, At(s, j).candidate) {
      assert PhaseOk(s, j, s.phases[j]);
      hide Safe, Ancestor;
      assert Forward(s, t);
      PushedPhases(s, t, j);
      PushedTrailers(s, t, j);
      PushedIntegrations(s, t, j);
    } else if t != s {
      hide Safe;
      StillStep(s, t);
    }
  }

  lemma ApplyKeepsInv(s: Sys, l: Label)
    requires HistoryInv(s)
    ensures HistoryInv(Apply(s, l))
  {
    match l
    case Screen(j, checkpoint, reconciled, renames) => ScreenKeepsInv(s, j, checkpoint, reconciled, renames);
    case Build(j, tree, mentions) => BuildKeepsInv(s, j, tree, mentions);
    case Push(j) => PushKeepsInv(s, j);
    case Stop(j) => StillStep(s, Enter(s, j, Idle));
    case Object(c) => if Ordinary(s, c) { ObjectKeepsInv(s, c); }
    case Advance(c) => if MayAdvance(s, c) { AdvanceKeepsInv(s, c); }
  }

  lemma {:induction false} ExecKeepsInv(s: Sys, labels: seq<Label>)
    requires HistoryInv(s)
    ensures HistoryInv(Exec(s, labels))
    decreases |labels|
  {
    if labels != [] {
      ApplyKeepsInv(s, labels[0]);
      ExecKeepsInv(Apply(s, labels[0]), labels[1..]);
    }
  }

  // ---------------------------------------------------------------- results

  /**
  Every integration that ever landed was screened under some renames, and has its parent in its checkpoint's
  history, or its list of paths and that of canonical history since its base share none, where moreover no
  commit names its resource.  Neither list of its own names the validation policy.
  */
  lemma EveryIntegrationIsSafe(s: Sys, labels: seq<Label>, k: nat)
    requires Initial(s) && k < |Exec(s, labels).integrations|
    ensures var t := Exec(s, labels);
      var i := t.integrations[k];
      && i.job in t.jobs && i.commit < |t.commits| && i.parent < |t.commits| && i.checkpoint < |t.commits|
      && t.jobs[i.job].base < |t.commits|
      && t.commits[i.commit].parents == [i.parent] && Ancestor(t.commits, i.commit, t.tip)
      && POLICY !in Listed(t.commits, i.renames.job, t.jobs[i.job].base, i.checkpoint)
      && (Ancestor(t.commits, i.parent, i.checkpoint)
        || (Listed(t.commits, i.renames.job, t.jobs[i.job].base, i.checkpoint)
              * Listed(t.commits, i.renames.main, t.jobs[i.job].base, i.parent) == {}
            && forall x :: 0 <= x < |t.commits| && Between(t.commits, t.jobs[i.job].base, i.parent, x) ==>
              t.jobs[i.job].resource !in t.commits[x].mentions))
  {
    ExecKeepsInv(s, labels);
    var t := Exec(s, labels);
    var i := t.integrations[k];
    assert IntegrationOk(t, i);
    if t.jobs[i.job].base == i.parent {
      assert forall x :: !Between(t.commits, i.parent, i.parent, x);
    }
  }

  /**
  Which attempts must be let through: the base is canonical, the policy file is as it was, and either no file
  differs from the base on both sides and no canonical commit since names the resource, or the metadata names
  the current tip as reconciled and the checkpoint contains it.
  */
  lemma HarmlessAttemptsAreAdmitted(
    cs: seq<Commit>, job: Job, current: Sha, checkpoint: Sha, reconciled: Option<Sha>, renames: Renames)
    requires job.base < |cs| && current < |cs| && checkpoint < |cs| && Ancestor(cs, job.base, current)
    requires !Differs(cs, job.base, checkpoint, POLICY)
    requires
      || ((forall f :: !(Differs(cs, job.base, checkpoint, f) && Differs(cs, job.base, current, f)))
          && forall x :: 0 <= x < |cs| && Between(cs, job.base, current, x) ==> job.resource !in cs[x].mentions)
      || (reconciled == Some(current) && Ancestor(cs, current, checkpoint))
    ensures Admits(cs, job, current, checkpoint, reconciled, renames)
  {
    hide Ancestor, Between;
    if forall f :: !(Differs(cs, job.base, checkpoint, f) && Differs(cs, job.base, current, f)) {
      assert Listed(cs, renames.job, job.base, checkpoint) * Listed(cs, renames.main, job.base, current) == {};
    }
  }

  // ---------------------------------------------------------------- what renames hide

  lemma RenamesAreChanges(cs: seq<Commit>, pairs: map<File, File>, a: Sha, b: Sha)
    requires a < |cs| && b < |cs|
    ensures RenamedAway(cs, pairs, a, b) <= ChangedPaths(cs, a, b)
    ensures forall f :: f in RenamedAway(cs, pairs, a, b) ==>
      f in cs[a].tree && f !in cs[b].tree && pairs[f] in Listed(cs, pairs, a, b)
    ensures pairs == map[] ==> Listed(cs, pairs, a, b) == ChangedPaths(cs, a, b)
  {
  }

  /**
  When two lists share no path, the ranges themselves share none if and only if neither side renamed away a
  path the other changed; and the policy, which the list does not name, is unchanged if and only if it was
  not renamed away.  A path both sides changed is in any case gone on one of them.
  */
  lemma DisjointListsExactlyWhen(cs: seq<Commit>, renames: Renames, base: Sha, checkpoint: Sha, current: Sha)
    requires base < |cs| && checkpoint < |cs| && current < |cs|
    requires Listed(cs, renames.job, base, checkpoint) * Listed(cs, renames.main, base, current) == {}
    ensures ChangedPaths(cs, base, checkpoint) * ChangedPaths(cs, base, current) == {} <==>
      && RenamedAway(cs, renames.job, base, checkpoint) !! ChangedPaths(cs, base, current)
      && RenamedAway(cs, renames.main, base, current) !! ChangedPaths(cs, base, checkpoint)
    ensures forall f :: f in ChangedPaths(cs, base, checkpoint) && f in ChangedPaths(cs, base, current) ==>
      f in cs[base].tree && (f !in cs[checkpoint].tree || f !in cs[current].tree)
  {
    RenamesAreChanges(cs, renames.job, base, checkpoint);
    RenamesAreChanges(cs, renames.main, base, current);
    hide ChangedPaths, RenamedAway;
    var shared := ChangedPaths(cs, base, checkpoint) * ChangedPaths(cs, base, current);
    forall f | f in shared
      ensures f in RenamedAway(cs, renames.job, base, checkpoint) || f in RenamedAway(cs, renames.main, base, current)
    {
      assert f !in Listed(cs, renames.job, base, checkpoint) * Listed(cs, renames.main, base, current);
    }
    if shared == {} {
      forall f | f in RenamedAway(cs, renames.job, base, checkpoint)
        ensures f !in ChangedPaths(cs, base, current)
      {
        assert f !in shared;
      }
      forall f | f in RenamedAway(cs, renames.main, base, current)
        ensures f !in ChangedPaths(cs, base, checkpoint)
      {
        assert f !in shared;
      }
    }
  }

  /**
  Of every integration that landed without its parent in its checkpoint's history: its range and that of
  canonical history since its base share no path if and only if no rename on either side took away a path the
  other side changed.  And of every integration: its checkpoint left the validation policy as it was in its
  base if and only if it did not rename it away.
  */
  lemma IntegrationsAreDisjointIff(s: Sys, labels: seq<Label>, k: nat)
    requires Initial(s) && k < |Exec(s, labels).integrations|
    ensures var t := Exec(s, labels);
      var i := t.integrations[k];
      && i.job in t.jobs && i.parent < |t.commits| && i.checkpoint < |t.commits| && t.jobs[i.job].base < |t.commits|
      && var base := t.jobs[i.job].base;
        && (POLICY !in ChangedPaths(t.commits, base, i.checkpoint) <==>
          POLICY !in RenamedAway(t.commits, i.renames.job, base, i.checkpoint))
        && (!Ancestor(t.commits, i.parent, i.checkpoint) ==>
          (ChangedPaths(t.commits, base, i.checkpoint) * ChangedPaths(t.commits, base, i.parent) == {} <==>
            && RenamedAway(t.commits, i.renames.job, base, i.checkpoint) !! ChangedPaths(t.commits, base, i.parent)
            && RenamedAway(t.commits, i.renames.main, base, i.parent) !! ChangedPaths(t.commits, base, i.checkpoint)))
  {
    EveryIntegrationIsSafe(s, labels, k);
    var t := Exec(s, labels);
    var i := t.integrations[k];
    var base := t.jobs[i.job].base;
    RenamesAreChanges(t.commits, i.renames.job, base, i.checkpoint);
    if !Ancestor(t.commits, i.parent, i.checkpoint) {
      DisjointListsExactlyWhen(t.commits, i.renames, base, i.checkpoint, i.parent);
    }
    hide ChangedPaths, RenamedAway, Exec, Ancestor, Between;
  }

  /** A base, what canonical history made of it, and what a job made of it. */
  function Fork(base: map<File, Content>, main: map<File, Content>, job: map<File, Content>): seq<Commit> {
    [Commit([], base, {}, None), Commit([0], main, {}, None), Commit([0], job, {}, None)]
  }

  function ForkStart(cs: seq<Commit>, tip: Sha): Sys {
    Sys(cs, tip, map[0 := Job(0, 7)], map[], [])
  }

  lemma ForkIsInitial(base: map<File, Content>, main: map<File, Content>, job: map<File, Content>, tip: Sha)
    requires tip < 3
    ensures Initial(ForkStart(Fork(base, main, job), tip))
  {
  }

  /** One unreconciled attempt at the job's checkpoint, from its first check to its push. */
  function Attempt(renames: Renames, merged: map<File, Content>): seq<Label> {
    [Screen(0, 2, None, renames), Build(0, merged, {}), Push(0)]
  }

  lemma AttemptLands(cs: seq<Commit>, tip: Sha, renames: Renames, merged: map<File, Content>)
    requires |cs| == 3 && tip < 2 && cs[tip].trailers.None?
    requires Admits(cs, Job(0, 7), tip, 2, None, renames)
    ensures var t := Exec(ForkStart(cs, tip), Attempt(renames, merged));
      && t.integrations == [Integration(0, tip, 2, renames, 3)] && t.tip == 3 && t.jobs == map[0 := Job(0, 7)]
      && cs <= t.commits && |t.commits| == 4 && t.commits[3].tree == merged
  {
    var labels := Attempt(renames, merged);
    var s := ForkStart(cs, tip);
    hide Admits;
    var a := ScreenStep(s, 0, 2, None, renames);
    var b := BuildStep(a, 0, merged, {});
    var c := PushStep(b, 0);
    assert a.phases == map[0 := Screened(tip, 2, renames)];
    assert b.commits == cs + [IntegrationCommit(Job(0, 7), 0, tip, 2, merged, {})];
    assert b.phases[0] == Built(tip, 2, renames, 3);
    assert Ancestor(b.commits, tip, 3) by {
      assert b.commits[3].parents[0] == tip;
    }
    assert labels[1..] == [Build(0, merged, {}), Push(0)] && labels[1..][1..] == [Push(0)] && [Push(0)][1..] == [];
    assert Exec(c, []) == c && Exec(b, [Push(0)]) == c && Exec(a, labels[1..]) == c;
  }

  /**
  The job renames a file that canonical history edits.  The lists share nothing, the attempt lands
  unreconciled, and both ranges change the file; without rename detection it is refused.
  */
  lemma RenameHidesOverlap()
    ensures var cs := Fork(map[1 := 10], map[1 := 11], map[2 := 10]);
      var renames := Renames(map[1 := 2], map[]);
      var s := ForkStart(cs, 1);
      var t := Exec(s, Attempt(renames, map[2 := 11]));
      && Initial(s) && t.integrations == [Integration(0, 1, 2, renames, 3)] && |t.commits| == 4
      && !Ancestor(t.commits, 1, 2)
      && 1 in ChangedPaths(t.commits, 0, 2) && 1 in ChangedPaths(t.commits, 0, 1)
      && Exec(s, Attempt(NO_RENAMES, map[2 := 11])).integrations == []
  {
    var cs := Fork(map[1 := 10], map[1 := 11], map[2 := 10]);
    var renames := Renames(map[1 := 2], map[]);
    hide Exec, Admits, Listed, RenamedAway, ChangedPaths, Ancestor, Attempt;
    ForkIsInitial(map[1 := 10], map[1 := 11], map[2 := 10], 1);
    OverlapIsHidden(cs);
    AttemptLands(cs, 1, renames, map[2 := 11]);
    RefusedAttempt(cs, 1, NO_RENAMES, map[2 := 11]);
    var t := Exec(ForkStart(cs, 1), Attempt(renames, map[2 := 11]));
    ListedStable(cs, t.commits, map[], 0, 2);
    ListedStable(cs, t.commits, map[], 0, 1);
    AncestorStable(cs, t.commits, 1, 2);
  }

  lemma OverlapIsHidden(cs: seq<Commit>)
    requires cs == Fork(map[1 := 10], map[1 := 11], map[2 := 10])
    ensures 1 in ChangedPaths(cs, 0, 2) && 1 in ChangedPaths(cs, 0, 1) && !Ancestor(cs, 1, 2)
    ensures Admits(cs, Job(0, 7), 1, 2, None, Renames(map[1 := 2], map[]))
    ensures !Admits(cs, Job(0, 7), 1, 2, None, NO_RENAMES)
  {
    assert cs[1].parents[0] == 0 && Ancestor(cs, 0, 0);
    assert Ancestor(cs, 0, 1);
    assert !Ancestor(cs, 1, 0) && !Ancestor(cs, 1, 2);
    assert ChangedPaths(cs, 0, 2) == {1, 2} && ChangedPaths(cs, 0, 1) == {1};
    assert RenamedAway(cs, map[1 := 2], 0, 2) == {1};
    assert Listed(cs, map[1 := 2], 0, 2) == {2} && Listed(cs, map[], 0, 1) == {1};
    assert Listed(cs, map[], 0, 2) == {1, 2};
    assert !ResourceSeenSince(cs, 0, 1, 7);
    hide Listed, RenamedAway, ChangedPaths, ResourceSeenSince, Ancestor;
    assert 1 in {1, 2} * {1};
    assert {2} * {1} == {};
  }

  lemma RefusedAttempt(cs: seq<Commit>, tip: Sha, renames: Renames, merged: map<File, Content>)
    requires !Admits(cs, Job(0, 7), tip, 2, None, renames)
    ensures Exec(ForkStart(cs, tip), Attempt(renames, merged)) == ForkStart(cs, tip)
  {
    var labels := Attempt(renames, merged);
    var s := ForkStart(cs, tip);
    hide Admits;
    assert labels[1..] == [Build(0, merged, {}), Push(0)] && labels[1..][1..] == [Push(0)] && [Push(0)][1..] == [];
    assert Apply(s, labels[0]) == s && Apply(s, labels[1]) == s && Apply(s, labels[2]) == s;
    assert Exec(s, []) == s && Exec(s, [Push(0)]) == s && Exec(s, labels[1..]) == s;
  }

  /**
  The job renames the validation policy away.  Its list does not name the policy, the attempt lands, and
  canonical history is left without one; without rename detection it is refused.
  */
  lemma RenameHidesPolicy()
    ensures var cs := Fork(map[POLICY := 5], map[POLICY := 5], map[9 := 5]);
      var renames := Renames(map[POLICY := 9], map[]);
      var s := ForkStart(cs, 0);
      var t := Exec(s, Attempt(renames, map[9 := 5]));
      && Initial(s) && t.integrations == [Integration(0, 0, 2, renames, 3)] && t.tip == 3 && |t.commits| == 4
      && POLICY in t.commits[0].tree && POLICY !in t.commits[t.tip].tree
      && Exec(s, Attempt(NO_RENAMES, map[9 := 5])).integrations == []
  {
    var cs := Fork(map[POLICY := 5], map[POLICY := 5], map[9 := 5]);
    var renames := Renames(map[POLICY := 9], map[]);
    hide Exec, Admits, Attempt;
    ForkIsInitial(map[POLICY := 5], map[POLICY := 5], map[9 := 5], 0);
    PolicyIsHidden(cs);
    AttemptLands(cs, 0, renames, map[9 := 5]);
    RefusedAttempt(cs, 0, NO_RENAMES, map[9 := 5]);
    var t := Exec(ForkStart(cs, 0), Attempt(renames, map[9 := 5]));
    assert t.commits[0] == cs[0];
  }

  lemma PolicyIsHidden(cs: seq<Commit>)
    requires cs == Fork(map[POLICY := 5], map[POLICY := 5], map[9 := 5])
    ensures Admits(cs, Job(0, 7), 0, 2, None, Renames(map[POLICY := 9], map[]))
    ensures !Admits(cs, Job(0, 7), 0, 2, None, NO_RENAMES)
  {
    assert ChangedPaths(cs, 0, 2) == {POLICY, 9} && ChangedPaths(cs, 0, 0) == {};
    assert RenamedAway(cs, map[POLICY := 9], 0, 2) == {POLICY};
    assert Listed(cs, map[POLICY := 9], 0, 2) == {9} && Listed(cs, map[], 0, 0) == {};
    assert Listed(cs, map[], 0, 2) == {POLICY, 9};
  }

  // ---------------------------------------------------------------- once each

  /** The first integration of a checkpoint shows up, by its resource, in any later attempt's range. */
  lemma SecondAttemptMustBeReconciled(t: Sys, k: nat, m: nat)
    requires HistoryInv(t) && k < m < |t.integrations| && t.integrations[k].job == t.integrations[m].job
    ensures Ancestor(t.commits, t.integrations[m].parent, t.integrations[m].checkpoint)
  {
    var a, b := t.integrations[k], t.integrations[m];
    var job := t.jobs[a.job];
    assert IntegrationOk(t, a) && IntegrationOk(t, b);
    assert Ancestor(t.commits, a.commit, b.parent);
    AncestorOrder(t.commits, job.base, a.parent);
    AncestorOrder(t.commits, a.commit, b.parent);
    if Ancestor(t.commits, a.commit, job.base) {
      AncestorOrder(t.commits, a.commit, job.base);
    }
    assert Between(t.commits, job.base, b.parent, a.commit);
  }

  /**
  Whatever reconciliation the metadata claims, the checks refuse a checkpoint that canonical history
  already holds: its own first integration stands in the range, and no later tip is in its history.
  */
  lemma IntegratedNeverAdmitted(t: Sys, k: nat, reconciled: Option<Sha>, renames: Renames)
    requires HistoryInv(t) && k < |t.integrations|
    ensures var i := t.integrations[k];
      i.job in t.jobs && !Admits(t.commits, t.jobs[i.job], t.tip, i.checkpoint, reconciled, renames)
  {
    var i := t.integrations[k];
    var job := t.jobs[i.job];
    assert IntegrationOk(t, i);
    AncestorOrder(t.commits, job.base, i.parent);
    AncestorOrder(t.commits, i.commit, t.tip);
    if Ancestor(t.commits, i.commit, job.base) {
      AncestorOrder(t.commits, i.commit, job.base);
    }
    assert Between(t.commits, job.base, t.tip, i.commit);
    if Ancestor(t.commits, t.tip, i.checkpoint) {
      AncestorOrder(t.commits, t.tip, i.checkpoint);
    }
  }

  /** No checkpoint of a job is integrated twice, whatever metadata was lost after a push. */
  lemma NoCheckpointIntegratedTwice(s: Sys, labels: seq<Label>, k: nat, m: nat)
    requires Initial(s) && k < m < |Exec(s, labels).integrations|
    requires Exec(s, labels).integrations[k].job == Exec(s, labels).integrations[m].job
    ensures Exec(s, labels).integrations[k].checkpoint != Exec(s, labels).integrations[m].checkpoint
  {
    ExecKeepsInv(s, labels);
    var t := Exec(s, labels);
    var a, b := t.integrations[k], t.integrations[m];
    assert IntegrationOk(t, a) && IntegrationOk(t, b);
    SecondAttemptMustBeReconciled(t, k, m);
    AncestorOrder(t.commits, b.parent, b.checkpoint);
    AncestorOrder(t.commits, a.commit, b.parent);
  }

  /** `_find_existing_integration`: canonical commits carrying this job and checkpoint. */
  function Existing(s: Sys, j: JobId, checkpoint: Sha): (r: set<Sha>)
    ensures forall x: Sha :: x in r <==>
      x < |s.commits| && s.commits[x].trailers == Some((j, checkpoint)) && Ancestor(s.commits, x, s.tip)
  {
    set x | 0 <= x < |s.commits| && s.commits[x].trailers == Some((j, checkpoint)) && Ancestor(s.commits, x, s.tip) :: x
  }

  predicate Integrated(t: Sys, j: JobId, checkpoint: Sha, x: Sha) {
    exists k :: 0 <= k < |t.integrations| && t.integrations[k].job == j && t.integrations[k].checkpoint == checkpoint
      && t.integrations[k].commit == x
  }

  lemma ExistingIsIntegrated(t: Sys, j: JobId, checkpoint: Sha, x: Sha)
    requires HistoryInv(t)
    ensures x in Existing(t, j, checkpoint) <==> Integrated(t, j, checkpoint, x)
  {
    hide Safe, Ancestor;
    if x in Existing(t, j, checkpoint) {
      assert Recorded(t, x);
      var k :| 0 <= k < |t.integrations| && t.integrations[k].commit == x;
      assert IntegrationOk(t, t.integrations[k]);
    }
    forall k | 0 <= k < |t.integrations|
      ensures IntegrationOk(t, t.integrations[k])
    {
    }
  }

  /**
  The search of canonical history finds a lost integration, and finds it alone: it returns a commit if and
  only if this checkpoint was integrated, and "multiple canonical integrations" cannot be raised.
  */
  lemma SearchFindsTheIntegration(s: Sys, labels: seq<Label>, j: JobId, checkpoint: Sha)
    requires Initial(s)
    ensures forall x: Sha ::
      x in Existing(Exec(s, labels), j, checkpoint) <==> Integrated(Exec(s, labels), j, checkpoint, x)
    ensures forall x, y ::
      x in Existing(Exec(s, labels), j, checkpoint) && y in Existing(Exec(s, labels), j, checkpoint) ==> x == y
  {
    ExecKeepsInv(s, labels);
    var t := Exec(s, labels);
    hide HistoryInv, Existing, Integrated, Exec;
    forall x: Sha
      ensures x in Existing(t, j, checkpoint) <==> Integrated(t, j, checkpoint, x)
    {
      ExistingIsIntegrated(t, j, checkpoint, x);
    }
    forall x, y | x in Existing(t, j, checkpoint) && y in Existing(t, j, checkpoint)
      ensures x == y
    {
      OneIntegration(s, labels, j, checkpoint, x, y);
    }
  }

  lemma OneIntegration(s: Sys, labels: seq<Label>, j: JobId, checkpoint: Sha, x: Sha, y: Sha)
    requires Initial(s)
    requires Integrated(Exec(s, labels), j, checkpoint, x) && Integrated(Exec(s, labels), j, checkpoint, y)
    ensures x == y
  {
    var t := Exec(s, labels);
    var k :| 0 <= k < |t.integrations| && t.integrations[k].job == j && t.integrations[k].checkpoint == checkpoint
      && t.integrations[k].commit == x;
    var m :| 0 <= m < |t.integrations| && t.integrations[m].job == j && t.integrations[m].checkpoint == checkpoint
      && t.integrations[m].commit == y;
    if k < m {
      NoCheckpointIntegratedTwice(s, labels, k, m);
    } else if m < k {
      NoCheckpointIntegratedTwice(s, labels, m, k);
    }
  }
}
