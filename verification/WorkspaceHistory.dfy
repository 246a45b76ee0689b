/**
Integration of workspace jobs into a canonical branch that only moves forward.  Commits are numbered in
the order their objects are written.  Nothing here trusts the job's metadata file: every value read from
it is a parameter, because its write after a push may be lost.
*/
module WorkspaceHistory {
  import opened Prelude

  type Sha = nat
  type JobId = nat
  type Resource = nat
  type File = nat
  type Content = nat

  const POLICY: File := 0

  /** mentions are the resources whose line occurs in the message. */
  datatype Commit = Commit(
    parents: seq<Sha>, tree: map<File, Content>, mentions: set<Resource>, trailers: Option<(JobId, Sha)>)

  datatype Job = Job(base: Sha, resource: Resource)

  /**
  The renames Git detects in the two diffs of an attempt, old path to new: from the base to the checkpoint
  and from the base to the canonical tip.  Both are empty where rename detection is off.
  */
  datatype Renames = Renames(job: map<File, File>, main: map<File, File>)

  const NO_RENAMES := Renames(map[], map[])

  /**
  What an attempt has established: the canonical tip it fetched, the checkpoint it integrates, and the
  renames under which it was screened.
  */
  datatype Phase =
    | Idle
    | Screened(current: Sha, checkpoint: Sha, renames: Renames)
    | Built(current: Sha, checkpoint: Sha, renames: Renames, candidate: Sha)

  datatype Integration = Integration(job: JobId, parent: Sha, checkpoint: Sha, renames: Renames, commit: Sha)

  /** integrations is a ghost record of the pushes that landed. */
  datatype Sys = Sys(
    commits: seq<Commit>, tip: Sha, jobs: map<JobId, Job>, phases: map<JobId, Phase>, integrations: seq<Integration>)

  datatype Label =
    | Screen(job: JobId, checkpoint: Sha, reconciled: Option<Sha>, renames: Renames)
    | Build(job: JobId, tree: map<File, Content>, mentions: set<Resource>)
    | Push(job: JobId)
    | Stop(job: JobId)
    | Object(commit: Commit)
    | Advance(target: Sha)

  predicate Acyclic(cs: seq<Commit>) {
    forall c, i :: 0 <= c < |cs| && 0 <= i < |cs[c].parents| ==> cs[c].parents[i] < c
  }

  /** git merge-base --is-ancestor. */
  predicate Ancestor(cs: seq<Commit>, a: Sha, b: Sha)
    decreases b
  {
    a == b || (b < |cs| && exists i :: 0 <= i < |cs[b].parents| && cs[b].parents[i] < b && Ancestor(cs, a, cs[b].parents[i]))
  }

  /** git log a..b names this commit. */
  predicate Between(cs: seq<Commit>, a: Sha, b: Sha, x: Sha) {
    Ancestor(cs, x, b) && !Ancestor(cs, x, a)
  }

  predicate Differs(cs: seq<Commit>, a: Sha, b: Sha, f: File)
    requires a < |cs| && b < |cs|
  {
    (f in cs[a].tree) != (f in cs[b].tree) || (f in cs[a].tree && cs[a].tree[f] != cs[b].tree[f])
  }

  /** git diff --no-renames --name-only a..b: every path the two trees do not agree on. */
  function ChangedPaths(cs: seq<Commit>, a: Sha, b: Sha): set<File>
    requires a < |cs| && b < |cs|
  {
    set f | f in cs[a].tree.Keys + cs[b].tree.Keys && Differs(cs, a, b, f)
  }

  /** A detected rename turns one path that is gone into one path that is new. */
  predicate IsRename(pairs: map<File, File>, before: map<File, Content>, after: map<File, Content>, f: File) {
    f in pairs && f in before && f !in after && pairs[f] in after && pairs[f] !in before
  }

  /** The old paths of the renames; of several that claim one new path none counts. */
  function RenamedAway(cs: seq<Commit>, pairs: map<File, File>, a: Sha, b: Sha): set<File>
    requires a < |cs| && b < |cs|
  {
    set f | f in pairs && IsRename(pairs, cs[a].tree, cs[b].tree, f)
      && forall g :: g in pairs && IsRename(pairs, cs[a].tree, cs[b].tree, g) && pairs[g] == pairs[f] ==> g == f
  }

  /** `_changed_paths`, git diff --name-only a..b: of a renamed file only the new path is listed. */
  function Listed(cs: seq<Commit>, pairs: map<File, File>, a: Sha, b: Sha): set<File>
    requires a < |cs| && b < |cs|
  {
    ChangedPaths(cs, a, b) - RenamedAway(cs, pairs, a, b)
  }

  predicate ResourceSeenSince(cs: seq<Commit>, base: Sha, current: Sha, r: Resource) {
    base != current && exists x :: 0 <= x < |cs| && Between(cs, base, current, x) && r in cs[x].mentions
  }

  /** No path on both lists and no commit of the same resource since the base. */
  predicate Disjoint(cs: seq<Commit>, job: Job, current: Sha, checkpoint: Sha, renames: Renames) {
    && job.base < |cs| && current < |cs| && checkpoint < |cs|
    && Listed(cs, renames.job, job.base, checkpoint) * Listed(cs, renames.main, job.base, current) == {}
    && !ResourceSeenSince(cs, job.base, current, job.resource)
  }

  /** The checks of `_integrate_job_locked` between its two fetches. */
  predicate Admits(
    cs: seq<Commit>, job: Job, current: Sha, checkpoint: Sha, reconciled: Option<Sha>, renames: Renames)
  {
    && job.base < |cs| && current < |cs| && checkpoint < |cs|
    && Ancestor(cs, job.base, current)
    && POLICY !in Listed(cs, renames.job, job.base, checkpoint)
    && (Disjoint(cs, job, current, checkpoint, renames) || (reconciled == Some(current) && Ancestor(cs, current, checkpoint)))
  }

  function At(s: Sys, j: JobId): Phase {
    if j in s.phases then s.phases[j] else Idle
  }

  function Enter(s: Sys, j: JobId, p: Phase): Sys {
    s.(phases := s.phases[j := p])
  }

  function IntegrationCommit(
    job: Job, j: JobId, current: Sha, checkpoint: Sha, tree: map<File, Content>, mentions: set<Resource>): Commit
  {
    Commit([current], tree, mentions + {job.resource}, Some((j, checkpoint)))
  }

  function ScreenStep(s: Sys, j: JobId, checkpoint: Sha, reconciled: Option<Sha>, renames: Renames): Sys {
    if At(s, j) == Idle && j in s.jobs && Admits(s.commits, s.jobs[j], s.tip, checkpoint, reconciled, renames) then
      Enter(s, j, Screened(s.tip, checkpoint, renames))
    else s
  }

  function BuildStep(s: Sys, j: JobId, tree: map<File, Content>, mentions: set<Resource>): Sys {
    match At(s, j)
    case Screened(current, checkpoint, renames) =>
      if j !in s.jobs then s
      else
        Enter(s.(commits := s.commits + [IntegrationCommit(s.jobs[j], j, current, checkpoint, tree, mentions)]), j,
          Built(current, checkpoint, renames, |s.commits|))
    case _ => s
  }

  /** A push without force lands only when the remote tip is an ancestor of what is pushed. */
  function PushStep(s: Sys, j: JobId): Sys {
    match At(s, j)
    case Built(current, checkpoint, renames, candidate) =>
      if Ancestor(s.commits, s.tip, candidate) then
        s.(tip := candidate, phases := s.phases[j := Idle],
           integrations := s.integrations + [Integration(j, current, checkpoint, renames, candidate)])
      else Enter(s, j, Idle)
    case _ => s
  }

  /** Anyone may write commits without the bridge's trailers. */
  predicate Ordinary(s: Sys, c: Commit) {
    c.trailers.None? && forall i :: 0 <= i < |c.parents| ==> c.parents[i] < |s.commits|
  }

  /** Others push forward only, and never publish a candidate the bridge has not pushed. */
  predicate MayAdvance(s: Sys, c: Sha) {
    && c < |s.commits| && Ancestor(s.commits, s.tip, c)
    && forall x :: 0 <= x < |s.commits| && s.commits[x].trailers.Some? && Ancestor(s.commits, x, c) ==>
      Ancestor(s.commits, x, s.tip)
  }

  function Apply(s: Sys, l: Label): Sys {
    match l
    case Screen(j, checkpoint, reconciled, renames) => ScreenStep(s, j, checkpoint, reconciled, renames)
    case Build(j, tree, mentions) => BuildStep(s, j, tree, mentions)
    case Push(j) => PushStep(s, j)
    case Stop(j) => Enter(s, j, Idle)
    case Object(c) => if Ordinary(s, c) then s.(commits := s.commits + [c]) else s
    case Advance(c) => if MayAdvance(s, c) then s.(tip := c) else s
  }

  function Exec(s: Sys, labels: seq<Label>): Sys
    decreases |labels|
  {
    if labels == [] then s else Exec(Apply(s, labels[0]), labels[1..])
  }

  /** Any history without the bridge's trailers, and any jobs based in it. */
  ghost predicate Initial(s: Sys) {
    && Acyclic(s.commits) && s.tip < |s.commits| && s.phases == map[] && s.integrations == []
    && forall c :: 0 <= c < |s.commits| ==> s.commits[c].trailers.None?
  }

  // ---------------------------------------------------------------- ancestry

  lemma {:induction false} AncestorOrder(cs: seq<Commit>, a: Sha, b: Sha)
    requires Ancestor(cs, a, b)
    ensures a <= b
    decreases b
  {
    if a != b {
      var i :| 0 <= i < |cs[b].parents| && cs[b].parents[i] < b && Ancestor(cs, a, cs[b].parents[i]);
      AncestorOrder(cs, a, cs[b].parents[i]);
    }
  }

  lemma {:induction false} AncestorTransitive(cs: seq<Commit>, a: Sha, b: Sha, c: Sha)
    requires Ancestor(cs, a, b) && Ancestor(cs, b, c)
    ensures Ancestor(cs, a, c)
    decreases c
  {
    if b != c {
      var i :| 0 <= i < |cs[c].parents| && cs[c].parents[i] < c && Ancestor(cs, b, cs[c].parents[i]);
      AncestorTransitive(cs, a, b, cs[c].parents[i]);
    }
  }

  /** New objects change no ancestry among old ones. */
  lemma {:induction false} AncestorStable(cs: seq<Commit>, ds: seq<Commit>, a: Sha, b: Sha)
    requires cs <= ds && b < |cs|
    ensures Ancestor(cs, a, b) == Ancestor(ds, a, b)
    decreases b
  {
    assert cs[b] == ds[b];
    forall i | 0 <= i < |cs[b].parents| && cs[b].parents[i] < b
      ensures Ancestor(cs, a, cs[b].parents[i]) == Ancestor(ds, a, cs[b].parents[i])
    {
      AncestorStable(cs, ds, a, cs[b].parents[i]);
    }
  }

  lemma OnlyParent(cs: seq<Commit>, a: Sha, b: Sha, p: Sha)
    requires b < |cs| && cs[b].parents == [p] && a != b && Ancestor(cs, a, b)
    ensures Ancestor(cs, a, p)
  {
  }

  lemma ListedStable(cs: seq<Commit>, ds: seq<Commit>, pairs: map<File, File>, a: Sha, b: Sha)
    requires cs <= ds && a < |cs| && b < |cs|
    ensures ChangedPaths(cs, a, b) == ChangedPaths(ds, a, b) && Listed(cs, pairs, a, b) == Listed(ds, pairs, a, b)
  {
    assert cs[a] == ds[a] && cs[b] == ds[b];
  }

  lemma DisjointStable(
    cs: seq<Commit>, ds: seq<Commit>, job: Job, current: Sha, checkpoint: Sha, renames: Renames)
    requires cs <= ds && Acyclic(ds) && current < |cs| && checkpoint < |cs| && job.base < |cs|
    ensures Disjoint(cs, job, current, checkpoint, renames) == Disjoint(ds, job, current, checkpoint, renames)
  {
    ListedStable(cs, ds, renames.job, job.base, checkpoint);
    ListedStable(cs, ds, renames.main, job.base, current);
    hide Listed;
    forall x: Sha | x < |cs|
      ensures Between(cs, job.base, current, x) == Between(ds, job.base, current, x)
    {
      AncestorStable(cs, ds, x, current);
      AncestorStable(cs, ds, x, job.base);
    }
    forall x: Sha | Ancestor(ds, x, current)
      ensures x < |cs|
    {
      AncestorOrder(ds, x, current);
    }
  }
}
