/**
Publication of transactions to Git by any number of concurrent, retried and crashing attempts.  Commits
are numbered in the order their objects are written, so a parent precedes its child; the request hash
is a constructor, hence injective.  Branches move only by the compare-and-swap of `Publish`.
*/
module GitTransactions {
  import opened Prelude

  type TxId = nat
  type Branch = nat
  type Sha = nat
  type Tree = nat
  type Worker = nat

  /** A validated request; its hash covers all of it. */
  datatype Tx = Tx(id: TxId, branch: Branch, base: Sha, patch: nat, push: bool)

  datatype Hash = Hash(of: Tx)

  datatype Commit = Commit(parents: seq<Sha>, tree: Tree, trailers: Option<(TxId, Hash)>)

  datatype Repo = Repo(commits: seq<Commit>, refs: map<Branch, Sha>, claims: map<TxId, Hash>)

  datatype Policy = Policy(allowCommit: bool, allowPush: bool)

  datatype Rejection = ClaimedByOther | CommittedByOther | StaleBranch | StaleBase | CommitsDisabled | PushDisabled

  /** What the first look at the refs decided. */
  datatype Plan = Plan(existing: bool, recovered: Option<Sha>)

  datatype Phase =
    | Idle
    | Screened(tx: Tx, plan: Plan)
    | Claimed(tx: Tx, plan: Plan)
    | Built(tx: Tx, plan: Plan, commit: Sha)

  /** published and successes are ghost records: CAS updates that landed, and success results returned. */
  datatype Sys = Sys(repo: Repo, attempts: map<Worker, Phase>, published: seq<(TxId, Sha)>, successes: seq<(Tx, Sha)>)

  datatype Label =
    | Screen(worker: Worker, tx: Tx, head: Sha, policy: Policy)
    | Bind(worker: Worker)
    | Build(worker: Worker, tree: Tree, at: Sha)
    | Publish(worker: Worker)
    | Recover(worker: Worker)
    | Stop(worker: Worker)
    | Object(commit: Commit)

  function At(s: Sys, w: Worker): Phase {
    if w in s.attempts then s.attempts[w] else Idle
  }

  function Enter(s: Sys, w: Worker, p: Phase): Sys {
    s.(attempts := s.attempts[w := p])
  }

  /** `_bridge_commit_matches_request`. */
  predicate Matches(r: Repo, c: Sha, tx: Tx) {
    c < |r.commits| && r.commits[c].trailers == Some((tx.id, Hash(tx))) && r.commits[c].parents == [tx.base]
  }

  /** The checks before anything is written, in order. */
  function Screening(r: Repo, tx: Tx, head: Sha, policy: Policy): Result<Plan, Rejection> {
    if tx.id in r.claims && r.claims[tx.id] != Hash(tx) then Err(ClaimedByOther)
    else
      match Tip(r, tx, head)
      case Err(e) => Err(e)
      case Ok(plan) =>
        if plan.recovered.None? && !policy.allowCommit then Err(CommitsDisabled)
        else if plan.recovered.None? && tx.push && !policy.allowPush then Err(PushDisabled)
        else Ok(plan)
  }

  function Tip(r: Repo, tx: Tx, head: Sha): Result<Plan, Rejection> {
    if tx.branch in r.refs then
      var tip := r.refs[tx.branch];
      if tip == tx.base then Ok(Plan(true, None))
      else if tip < |r.commits| && OtherRequest(r.commits[tip], tx) then Err(CommittedByOther)
      else if Matches(r, tip, tx) then Ok(Plan(true, Some(tip)))
      else Err(StaleBranch)
    else if head != tx.base then Err(StaleBase)
    else Ok(Plan(false, None))
  }

  predicate OtherRequest(c: Commit, tx: Tx) {
    c.trailers.Some? && c.trailers.value.0 == tx.id && c.trailers.value.1 != Hash(tx)
  }

  function TxCommit(tx: Tx, tree: Tree): Commit {
    Commit([tx.base], tree, Some((tx.id, Hash(tx))))
  }

  /** git update-ref with an old value; an empty old value requires the ref to be absent. */
  predicate Swaps(r: Repo, tx: Tx, plan: Plan) {
    if plan.existing then tx.branch in r.refs && r.refs[tx.branch] == tx.base else tx.branch !in r.refs
  }

  function ScreenStep(s: Sys, w: Worker, tx: Tx, head: Sha, policy: Policy): Sys {
    if At(s, w) != Idle || head >= |s.repo.commits| then s
    else
      match Screening(s.repo, tx, head, policy)
      case Err(_) => s
      case Ok(plan) => Enter(s, w, Screened(tx, plan))
  }

  /** Compare-and-create of the claim ref; the loser of a race goes on only under the same hash. */
  function BindStep(s: Sys, w: Worker): Sys {
    match At(s, w)
    case Screened(tx, plan) =>
      if tx.id !in s.repo.claims then
        Enter(s.(repo := s.repo.(claims := s.repo.claims[tx.id := Hash(tx)])), w, Claimed(tx, plan))
      else if s.repo.claims[tx.id] == Hash(tx) then Enter(s, w, Claimed(tx, plan))
      else Enter(s, w, Idle)
    case _ => s
  }

  /** git commit-tree: a new object, or one that exists already with exactly this content. */
  function BuildStep(s: Sys, w: Worker, tree: Tree, at: Sha): Sys {
    match At(s, w)
    case Claimed(tx, plan) =>
      if plan.recovered.Some? then s
      else if at == |s.repo.commits| then
        Enter(s.(repo := s.repo.(commits := s.repo.commits + [TxCommit(tx, tree)])), w, Built(tx, plan, at))
      else if at < |s.repo.commits| && s.repo.commits[at] == TxCommit(tx, tree) then Enter(s, w, Built(tx, plan, at))
      else s
    case _ => s
  }

  function PublishStep(s: Sys, w: Worker): Sys {
    match At(s, w)
    case Built(tx, plan, c) =>
      if Swaps(s.repo, tx, plan) then
        Sys(s.repo.(refs := s.repo.refs[tx.branch := c]), s.attempts[w := Idle],
            s.published + [(tx.id, c)], s.successes + [(tx, c)])
      else Enter(s, w, Idle)
    case _ => s
  }

  function RecoverStep(s: Sys, w: Worker): Sys {
    match At(s, w)
    case Claimed(tx, plan) =>
      if plan.recovered.None? then s
      else Enter(s.(successes := s.successes + [(tx, plan.recovered.value)]), w, Idle)
    case _ => s
  }

  /** Stop is a crash or a failure of the attempt; Object is any commit written by anyone, on no branch. */
  function Apply(s: Sys, l: Label): Sys {
    match l
    case Screen(w, tx, head, policy) => ScreenStep(s, w, tx, head, policy)
    case Bind(w) => BindStep(s, w)
    case Build(w, tree, at) => BuildStep(s, w, tree, at)
    case Publish(w) => PublishStep(s, w)
    case Recover(w) => RecoverStep(s, w)
    case Stop(w) => Enter(s, w, Idle)
    case Object(c) =>
      if forall i :: 0 <= i < |c.parents| ==> c.parents[i] < |s.repo.commits| then
        s.(repo := s.repo.(commits := s.repo.commits + [c]))
      else s
  }

  function Exec(s: Sys, labels: seq<Label>): Sys
    decreases |labels|
  {
    if labels == [] then s else Exec(Apply(s, labels[0]), labels[1..])
  }

  /** Any history of ordinary commits, any branches; no transaction has run yet. */
  ghost predicate Initial(s: Sys) {
    && Acyclic(s.repo.commits) && s.attempts == map[] && s.published == [] && s.successes == [] && s.repo.claims == map[]
    && forall b :: b in s.repo.refs ==>
      s.repo.refs[b] < |s.repo.commits| && s.repo.commits[s.repo.refs[b]].trailers.None?
  }

  // ---------------------------------------------------------------- invariant

  predicate Acyclic(commits: seq<Commit>) {
    forall c, i :: 0 <= c < |commits| && 0 <= i < |commits[c].parents| ==> commits[c].parents[i] < c
  }

  /** The one commit of a claimed transaction is on its branch, and the branch has not gone back. */
  predicate PublicationOk(r: Repo, id: TxId, c: Sha) {
    && id in r.claims
    && var tx := r.claims[id].of;
      && tx.id == id && Matches(r, c, tx) && tx.branch in r.refs && c <= r.refs[tx.branch]
  }

  predicate PublishedOk(s: Sys) {
    && (forall i :: 0 <= i < |s.published| ==> PublicationOk(s.repo, s.published[i].0, s.published[i].1))
    && (forall i, j :: 0 <= i < j < |s.published| ==> s.published[i].0 != s.published[j].0)
  }

  predicate RefOk(s: Sys, c: Sha) {
    && c < |s.repo.commits|
    && (s.repo.commits[c].trailers.Some? ==> (s.repo.commits[c].trailers.value.0, c) in s.published)
  }

  predicate PlanOk(s: Sys, tx: Tx, plan: Plan) {
    && tx.base < |s.repo.commits|
    && (plan.recovered.Some? ==> Matches(s.repo, plan.recovered.value, tx) && (tx.id, plan.recovered.value) in s.published)
  }

  predicate PhaseOk(s: Sys, p: Phase) {
    match p
    case Idle => true
    case Screened(tx, plan) => PlanOk(s, tx, plan)
    case Claimed(tx, plan) => PlanOk(s, tx, plan) && tx.id in s.repo.claims && s.repo.claims[tx.id] == Hash(tx)
    case Built(tx, plan, c) =>
      && PlanOk(s, tx, plan) && tx.id in s.repo.claims && s.repo.claims[tx.id] == Hash(tx)
      && plan.recovered.None? && Matches(s.repo, c, tx)
  }

  predicate SuccessOk(s: Sys, tx: Tx, c: Sha) {
    (tx.id, c) in s.published && Matches(s.repo, c, tx)
  }

  ghost predicate GitInv(s: Sys) {
    && Acyclic(s.repo.commits) && PublishedOk(s)
    && (forall id :: id in s.repo.claims ==> s.repo.claims[id].of.id == id)
    && (forall b :: b in s.repo.refs ==> RefOk(s, s.repo.refs[b]))
    && (forall w :: w in s.attempts ==> PhaseOk(s, s.attempts[w]))
    && (forall i :: 0 <= i < |s.successes| ==> SuccessOk(s, s.successes[i].0, s.successes[i].1))
  }

  /** What no step undoes: objects, claims, publications. */
  ghost predicate Extends(s: Sys, t: Sys) {
    && s.repo.commits <= t.repo.commits && s.published <= t.published && s.successes <= t.successes
    && (forall id :: id in s.repo.claims ==> id in t.repo.claims && t.repo.claims[id] == s.repo.claims[id])
    && (forall b :: b in s.repo.refs ==> b in t.repo.refs && s.repo.refs[b] <= t.repo.refs[b])
  }

  lemma PhaseExtends(s: Sys, t: Sys, p: Phase)
    requires Extends(s, t) && PhaseOk(s, p)
    ensures PhaseOk(t, p)
  {
  }

  lemma PublicationsExtend(s: Sys, t: Sys)
    requires Extends(s, t) && PublishedOk(s) && t.published == s.published
    ensures PublishedOk(t)
  {
    forall i | 0 <= i < |t.published|
      ensures PublicationOk(t.repo, t.published[i].0, t.published[i].1)
    {
      assert PublicationOk(s.repo, s.published[i].0, s.published[i].1);
    }
  }

  lemma SuccessesExtend(s: Sys, t: Sys, i: nat)
    requires Extends(s, t) && i < |s.successes| && SuccessOk(s, s.successes[i].0, s.successes[i].1)
    ensures SuccessOk(t, t.successes[i].0, t.successes[i].1)
  {
    assert (s.successes[i].0.id, s.successes[i].1) in s.published;
  }

  /** A step that adds no publication and moves no branch. */
  lemma QuietStepKeepsInv(s: Sys, t: Sys)
    requires GitInv(s) && Extends(s, t) && t.published == s.published && t.repo.refs == s.repo.refs
    requires Acyclic(t.repo.commits)
    requires forall id :: id in t.repo.claims ==> t.repo.claims[id].of.id == id
    requires forall w :: w in t.attempts && !(w in s.attempts && t.attempts[w] == s.attempts[w]) ==> PhaseOk(t, t.attempts[w])
    requires forall i :: |s.successes| <= i < |t.successes| ==> SuccessOk(t, t.successes[i].0, t.successes[i].1)
    ensures GitInv(t)
  {
    PublicationsExtend(s, t);
    forall w | w in t.attempts
      ensures PhaseOk(t, t.attempts[w])
    {
      if w in s.attempts && t.attempts[w] == s.attempts[w] {
        PhaseExtends(s, t, s.attempts[w]);
      }
    }
    forall i | 0 <= i < |t.successes|
      ensures SuccessOk(t, t.successes[i].0, t.successes[i].1)
    {
      if i < |s.successes| {
        SuccessesExtend(s, t, i);
      }
    }
  }

  lemma BaseBefore(r: Repo, c: Sha, tx: Tx)
    requires Acyclic(r.commits) && Matches(r, c, tx)
    ensures tx.base < c
  {
    assert r.commits[c].parents[0] == tx.base;
  }

  lemma ScreeningPlans(s: Sys, tx: Tx, head: Sha, policy: Policy)
    requires GitInv(s) && head < |s.repo.commits| && Screening(s.repo, tx, head, policy).Ok?
    ensures PlanOk(s, tx, Screening(s.repo, tx, head, policy).value)
  {
    if tx.branch in s.repo.refs {
      assert RefOk(s, s.repo.refs[tx.branch]);
      if s.repo.refs[tx.branch] != tx.base {
        BaseBefore(s.repo, s.repo.refs[tx.branch], tx);
      }
    }
  }

  lemma ScreenKeepsInv(s: Sys, w: Worker, tx: Tx, head: Sha, policy: Policy)
    requires GitInv(s)
    ensures GitInv(ScreenStep(s, w, tx, head, policy)) && Extends(s, ScreenStep(s, w, tx, head, policy))
  {
    var t := ScreenStep(s, w, tx, head, policy);
    if t != s {
      ScreeningPlans(s, tx, head, policy);
    }
    hide Screening, Matches;
    QuietStepKeepsInv(s, t);
  }

  lemma BindKeepsInv(s: Sys, w: Worker)
    requires GitInv(s)
    ensures GitInv(BindStep(s, w)) && Extends(s, BindStep(s, w))
  {
    if At(s, w).Screened? {
      assert PhaseOk(s, s.attempts[w]);
    }
    QuietStepKeepsInv(s, BindStep(s, w));
  }

  lemma BuildKeepsInv(s: Sys, w: Worker, tree: Tree, at: Sha)
    requires GitInv(s)
    ensures GitInv(BuildStep(s, w, tree, at)) && Extends(s, BuildStep(s, w, tree, at))
  {
    if At(s, w).Claimed? {
      assert PhaseOk(s, s.attempts[w]);
    }
    QuietStepKeepsInv(s, BuildStep(s, w, tree, at));
  }

  lemma RecoverKeepsInv(s: Sys, w: Worker)
    requires GitInv(s)
    ensures GitInv(RecoverStep(s, w)) && Extends(s, RecoverStep(s, w))
  {
    if At(s, w).Claimed? {
      assert PhaseOk(s, s.attempts[w]);
    }
    QuietStepKeepsInv(s, RecoverStep(s, w));
  }

  lemma QuietLabelKeepsInv(s: Sys, l: Label)
    requires GitInv(s) && !l.Publish?
    ensures GitInv(Apply(s, l)) && Extends(s, Apply(s, l))
  {
    match l
    case Screen(w, tx, head, policy) => ScreenKeepsInv(s, w, tx, head, policy);
    case Object(c) => QuietStepKeepsInv(s, Apply(s, l));
    case Stop(w) => QuietStepKeepsInv(s, Apply(s, l));
    case Bind(w) => BindKeepsInv(s, w);
    case Build(w, tree, at) => BuildKeepsInv(s, w, tree, at);
    case Recover(w) => RecoverKeepsInv(s, w);
  }

  /** Once published, the branch is past the base for good, so no second swap of the transaction lands. */
  lemma SwapIsFirst(s: Sys, w: Worker)
    requires GitInv(s) && At(s, w).Built? && Swaps(s.repo, At(s, w).tx, At(s, w).plan)
    ensures forall i :: 0 <= i < |s.published| ==> s.published[i].0 != At(s, w).tx.id
  {
    var tx := At(s, w).tx;
    assert PhaseOk(s, s.attempts[w]);
    forall i | 0 <= i < |s.published|
      ensures s.published[i].0 != tx.id
    {
      assert PublicationOk(s.repo, s.published[i].0, s.published[i].1);
      BaseBefore(s.repo, s.published[i].1, s.repo.claims[s.published[i].0].of);
    }
  }

  lemma PublishKeepsInv(s: Sys, w: Worker)
    requires GitInv(s)
    ensures GitInv(Apply(s, Publish(w))) && Extends(s, Apply(s, Publish(w)))
  {
    var t := Apply(s, Publish(w));
    if At(s, w).Built? && Swaps(s.repo, At(s, w).tx, At(s, w).plan) {
      var tx, c := At(s, w).tx, At(s, w).commit;
      assert PhaseOk(s, s.attempts[w]);
      SwapIsFirst(s, w);
      BaseBefore(s.repo, c, tx);
      assert Extends(s, t);
      PublishedStep(s, t, tx, c);
      forall v | v in t.attempts
        ensures PhaseOk(t, t.attempts[v])
      {
        if v != w {
          PhaseExtends(s, t, s.attempts[v]);
        }
      }
      forall i | 0 <= i < |t.successes|
        ensures SuccessOk(t, t.successes[i].0, t.successes[i].1)
      {
        if i < |s.successes| {
          SuccessesExtend(s, t, i);
        } else {
          assert t.published[|s.published|] == (tx.id, c);
        }
      }
      RefsStep(s, t, tx, c);
    } else if t != s {
      QuietStepKeepsInv(s, t);
    }
  }

  lemma PublishedStep(s: Sys, t: Sys, tx: Tx, c: Sha)
    requires PublishedOk(s) && Extends(s, t) && t.published == s.published + [(tx.id, c)]
    requires PublicationOk(t.repo, tx.id, c)
    requires forall i :: 0 <= i < |s.published| ==> s.published[i].0 != tx.id
    ensures PublishedOk(t)
  {
    forall i | 0 <= i < |t.published|
      ensures PublicationOk(t.repo, t.published[i].0, t.published[i].1)
    {
      if i < |s.published| {
        assert PublicationOk(s.repo, s.published[i].0, s.published[i].1);
      }
    }
  }

  lemma RefsStep(s: Sys, t: Sys, tx: Tx, c: Sha)
    requires forall b :: b in s.repo.refs ==> RefOk(s, s.repo.refs[b])
    requires t.repo.commits == s.repo.commits && t.published == s.published + [(tx.id, c)] && Matches(t.repo, c, tx)
    requires t.repo.refs == s.repo.refs[tx.branch := c]
    ensures forall b :: b in t.repo.refs ==> RefOk(t, t.repo.refs[b])
  {
    forall b | b in t.repo.refs
      ensures RefOk(t, t.repo.refs[b])
    {
      if b == tx.branch {
        assert t.published[|s.published|] == (tx.id, c);
      } else {
        assert RefOk(s, s.repo.refs[b]);
      }
    }
  }

  lemma ApplyKeepsInv(s: Sys, l: Label)
    requires GitInv(s)
    ensures GitInv(Apply(s, l)) && Extends(s, Apply(s, l))
  {
    if l.Publish? {
      PublishKeepsInv(s, l.worker);
    } else {
      QuietLabelKeepsInv(s, l);
    }
  }

  lemma {:induction false} ExecKeepsInv(s: Sys, labels: seq<Label>)
    requires GitInv(s)
    ensures GitInv(Exec(s, labels)) && Extends(s, Exec(s, labels))
    decreases |labels|
  {
    if labels != [] {
      var u := Apply(s, labels[0]);
      ApplyKeepsInv(s, labels[0]);
      ExecKeepsInv(u, labels[1..]);
    }
  }

  // ---------------------------------------------------------------- results

  /**
  Over any retries, interleavings and crashes at most one commit is published for a transaction ID; it
  carries the trailers of the one request that claimed the ID and has that request's base as sole parent.
  */
  lemma OnePublicationPerTransaction(s: Sys, labels: seq<Label>)
    requires Initial(s)
    ensures var t := Exec(s, labels);
      && (forall i, j :: 0 <= i < j < |t.published| ==> t.published[i].0 != t.published[j].0)
      && (forall i :: 0 <= i < |t.published| ==>
        && t.published[i].0 in t.repo.claims && t.published[i].1 < |t.repo.commits|
        && var c, tx := t.repo.commits[t.published[i].1], t.repo.claims[t.published[i].0].of;
          c.trailers == Some((tx.id, Hash(tx))) && tx.id == t.published[i].0 && c.parents == [tx.base])
  {
    ExecKeepsInv(s, labels);
    var t := Exec(s, labels);
    assert forall i :: 0 <= i < |t.published| ==> PublicationOk(t.repo, t.published[i].0, t.published[i].1);
  }

  /** All successes reported under one transaction ID are for the same request and name the same commit. */
  lemma SuccessesAgree(s: Sys, labels: seq<Label>, i: nat, j: nat)
    requires Initial(s)
    requires i < |Exec(s, labels).successes| && j < |Exec(s, labels).successes|
    requires Exec(s, labels).successes[i].0.id == Exec(s, labels).successes[j].0.id
    ensures Exec(s, labels).successes[i] == Exec(s, labels).successes[j]
    ensures var t := Exec(s, labels);
      var (tx, c) := t.successes[i];
      c < |t.repo.commits| && t.repo.commits[c].trailers == Some((tx.id, Hash(tx))) && t.repo.commits[c].parents == [tx.base]
  {
    ExecKeepsInv(s, labels);
    var t := Exec(s, labels);
    var (a, c) := t.successes[i];
    var (b, d) := t.successes[j];
    assert SuccessOk(t, a, c) && SuccessOk(t, b, d);
    var m :| 0 <= m < |t.published| && t.published[m] == (a.id, c);
    var n :| 0 <= n < |t.published| && t.published[n] == (b.id, d);
    assert m == n;
  }

  /** A claim, once made, is never rebound or removed, whatever later requests carry the same ID. */
  lemma ClaimsArePermanent(s: Sys, labels: seq<Label>, id: TxId)
    requires GitInv(s) && id in s.repo.claims
    ensures id in Exec(s, labels).repo.claims && Exec(s, labels).repo.claims[id] == s.repo.claims[id]
  {
    ExecKeepsInv(s, labels);
  }

  /** While the published commit is still the tip, a retry recovers it, under any policy and any HEAD. */
  lemma RetryRecoversTip(s: Sys, i: nat, head: Sha, policy: Policy)
    requires GitInv(s) && i < |s.published|
    requires var tx := s.repo.claims[s.published[i].0].of;
      s.published[i].0 in s.repo.claims && tx.branch in s.repo.refs && s.repo.refs[tx.branch] == s.published[i].1
    ensures Screening(s.repo, s.repo.claims[s.published[i].0].of, head, policy) == Ok(Plan(true, Some(s.published[i].1)))
  {
    var tx := s.repo.claims[s.published[i].0].of;
    assert PublicationOk(s.repo, s.published[i].0, s.published[i].1);
    BaseBefore(s.repo, s.published[i].1, tx);
  }

  /** Once the branch has moved on, a retry is refused: it neither republishes nor claims success. */
  lemma RetryAfterMoveIsStale(s: Sys, i: nat, head: Sha, policy: Policy)
    requires GitInv(s) && i < |s.published| && s.published[i].0 in s.repo.claims
    requires s.repo.refs[BranchOf(s, i)] != s.published[i].1
    ensures Screening(s.repo, s.repo.claims[s.published[i].0].of, head, policy) == Err(StaleBranch)
  {
    var (id, c) := s.published[i];
    var tx := s.repo.claims[id].of;
    assert PublicationOk(s.repo, id, c);
    var tip := s.repo.refs[tx.branch];
    assert RefOk(s, tip);
    BaseBefore(s.repo, c, tx);
    assert (id, tip) !in s.published;
  }

  function BranchOf(s: Sys, i: nat): Branch
    requires GitInv(s) && i < |s.published|
    ensures BranchOf(s, i) in s.repo.refs
  {
    assert PublicationOk(s.repo, s.published[i].0, s.published[i].1);
    s.repo.claims[s.published[i].0].of.branch
  }

  // ---------------------------------------------------------------- what was permitted

  /** Some attempt at this request was screened under a policy that allows its commit and the push it asks for. */
  ghost predicate Permitted(labels: seq<Label>, tx: Tx) {
    exists k :: 0 <= k < |labels| && Permits(labels[k], tx)
  }

  predicate Permits(l: Label, tx: Tx) {
    l.Screen? && l.tx == tx && l.policy.allowCommit && (tx.push ==> l.policy.allowPush)
  }

  /** An attempt that may still publish, and every publication, goes back to a permitted screening. */
  ghost predicate PermissionInv(s: Sys, labels: seq<Label>) {
    && (forall w :: w in s.attempts && s.attempts[w] != Idle && s.attempts[w].plan.recovered.None? ==>
      Permitted(labels, s.attempts[w].tx))
    && (forall i :: 0 <= i < |s.published| ==>
      && s.published[i].0 in s.repo.claims && Permitted(labels, s.repo.claims[s.published[i].0].of))
  }

  lemma PermittedLonger(labels: seq<Label>, l: Label, tx: Tx)
    ensures Permitted(labels, tx) || Permits(l, tx) ==> Permitted(labels + [l], tx)
  {
    if Permitted(labels, tx) {
      var k :| 0 <= k < |labels| && Permits(labels[k], tx);
      assert (labels + [l])[k] == labels[k];
    }
    if Permits(l, tx) {
      assert (labels + [l])[|labels|] == l;
    }
  }

  lemma AttemptsStayPermitted(s: Sys, labels: seq<Label>, l: Label)
    requires PermissionInv(s, labels)
    ensures var t := Apply(s, l);
      forall w :: w in t.attempts && t.attempts[w] != Idle && t.attempts[w].plan.recovered.None? ==>
        Permitted(labels + [l], t.attempts[w].tx)
  {
    var t := Apply(s, l);
    hide Permitted, Matches;
    forall w | w in t.attempts && t.attempts[w] != Idle && t.attempts[w].plan.recovered.None?
      ensures Permitted(labels + [l], t.attempts[w].tx)
    {
      PermittedLonger(labels, l, t.attempts[w].tx);
    }
  }

  lemma StepKeepsPermission(s: Sys, labels: seq<Label>, l: Label)
    requires GitInv(s) && PermissionInv(s, labels)
    ensures PermissionInv(Apply(s, l), labels + [l])
  {
    var t := Apply(s, l);
    ApplyKeepsInv(s, l);
    if l.Publish? && At(s, l.worker).Built? {
      assert PhaseOk(s, s.attempts[l.worker]);
    }
    hide Permitted, GitInv, Matches, Extends;
    AttemptsStayPermitted(s, labels, l);
    forall i | 0 <= i < |t.published|
      ensures t.published[i].0 in t.repo.claims && Permitted(labels + [l], t.repo.claims[t.published[i].0].of)
    {
      assert PublicationOk(t.repo, t.published[i].0, t.published[i].1);
      PermittedLonger(labels, l, t.repo.claims[t.published[i].0].of);
    }
  }

  lemma {:induction false} RunKeepsPermission(s: Sys, before: seq<Label>, labels: seq<Label>)
    requires GitInv(s) && PermissionInv(s, before)
    ensures PermissionInv(Exec(s, labels), before + labels)
    decreases |labels|
  {
    if labels == [] {
      assert before + labels == before;
    } else {
      StepKeepsPermission(s, before, labels[0]);
      ApplyKeepsInv(s, labels[0]);
      RunKeepsPermission(Apply(s, labels[0]), before + [labels[0]], labels[1..]);
      assert before + labels == before + [labels[0]] + labels[1..];
    }
  }

  /** Nothing is published that no policy ever allowed. */
  lemma PublicationsWerePermitted(s: Sys, labels: seq<Label>, i: nat)
    requires Initial(s) && i < |Exec(s, labels).published|
    ensures var t := Exec(s, labels);
      && t.published[i].0 in t.repo.claims
      && var tx := t.repo.claims[t.published[i].0].of;
        exists k :: 0 <= k < |labels| && labels[k].Screen? && labels[k].tx == tx
          && labels[k].policy.allowCommit && (tx.push ==> labels[k].policy.allowPush)
  {
    RunKeepsPermission(s, [], labels);
    assert [] + labels == labels;
    var t := Exec(s, labels);
    var k :| 0 <= k < |labels| && Permits(labels[k], t.repo.claims[t.published[i].0].of);
  }
}
