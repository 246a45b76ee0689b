/**
`process_transaction` as it runs, one Git command after the other, with other processes acting between
any two of them.  An attempt is proved to be a run of the machine of `GitTransactions`.
*/
module GitProcess {
  import opened Prelude
  import opened GitTransactions

  datatype Failure = Refused(rejection: Rejection) | ClaimLost | NotBuilt | BranchMoved

  /** Steps of other processes. */
  predicate Foreign(labels: seq<Label>, w: Worker) {
    forall i :: 0 <= i < |labels| && !labels[i].Object? ==> labels[i].worker != w
  }

  lemma {:induction false} ForeignLeavesPhase(s: Sys, labels: seq<Label>, w: Worker)
    requires Foreign(labels, w)
    ensures At(Exec(s, labels), w) == At(s, w)
    decreases |labels|
  {
    if labels != [] {
      assert labels[0].Object? || labels[0].worker != w;
      ForeignLeavesPhase(Apply(s, labels[0]), labels[1..], w);
    }
  }

  lemma {:induction false} ExecAppend(s: Sys, a: seq<Label>, b: seq<Label>)
    ensures Exec(s, a + b) == Exec(Exec(s, a), b)
    decreases |a|
  {
    if a == [] {
      assert a + b == b;
    } else {
      assert (a + b)[1..] == a[1..] + b;
      ExecAppend(Apply(s, a[0]), a[1..], b);
    }
  }

  lemma ExecLast(s: Sys, a: seq<Label>, l: Label)
    ensures Exec(s, a + [l]) == Apply(Exec(s, a), l)
  {
    ExecAppend(s, a, [l]);
    assert [l][1..] == [];
  }

  // ---------------------------------------------------------------- when a request is refused

  /** The branch is where the request expects it; absent, it would start at HEAD. */
  predicate AtBase(r: Repo, tx: Tx, head: Sha) {
    if tx.branch in r.refs then r.refs[tx.branch] == tx.base else head == tx.base
  }

  /** The tip carries this transaction's ID. */
  predicate TipNames(r: Repo, tx: Tx) {
    && tx.branch in r.refs && r.refs[tx.branch] != tx.base && r.refs[tx.branch] < |r.commits|
    && r.commits[r.refs[tx.branch]].trailers.Some? && r.commits[r.refs[tx.branch]].trailers.value.0 == tx.id
  }

  /** The tip is the commit of this very request, on its base. */
  predicate TipIsOwn(r: Repo, tx: Tx) {
    && TipNames(r, tx) && r.commits[r.refs[tx.branch]].trailers.value.1 == Hash(tx)
    && r.commits[r.refs[tx.branch]].parents == [tx.base]
  }

  predicate ClaimedElsewhere(r: Repo, tx: Tx) {
    tx.id in r.claims && r.claims[tx.id] != Hash(tx)
  }

  /** The checks in program order, cause by cause. */
  lemma RefusedExactly(r: Repo, tx: Tx, head: Sha, policy: Policy)
    ensures Screening(r, tx, head, policy) == Err(ClaimedByOther) <==> ClaimedElsewhere(r, tx)
    ensures TipIsOwn(r, tx) ==> tx.branch in r.refs
    ensures !ClaimedElsewhere(r, tx) && TipIsOwn(r, tx) ==>
      Screening(r, tx, head, policy) == Ok(Plan(true, Some(r.refs[tx.branch])))
    ensures !ClaimedElsewhere(r, tx) && !TipIsOwn(r, tx) ==>
      var screened := Screening(r, tx, head, policy);
      && (screened == Err(StaleBase) <==> tx.branch !in r.refs && head != tx.base)
      && (screened == Err(CommittedByOther) <==> TipNames(r, tx) && r.commits[r.refs[tx.branch]].trailers.value.1 != Hash(tx))
      && (screened == Err(StaleBranch) <==>
        && !AtBase(r, tx, head) && tx.branch in r.refs
        && !(TipNames(r, tx) && r.commits[r.refs[tx.branch]].trailers.value.1 != Hash(tx)))
      && (screened == Err(CommitsDisabled) <==> AtBase(r, tx, head) && !policy.allowCommit)
      && (screened == Err(PushDisabled) <==> AtBase(r, tx, head) && policy.allowCommit && tx.push && !policy.allowPush)
      && (screened.Ok? ==> AtBase(r, tx, head) && screened.value == Plan(tx.branch in r.refs, None))
  {
  }

  predicate AloneCanPublish(r: Repo, tx: Tx, plan: Plan) {
    !ClaimedElsewhere(r, tx) && Swaps(r, tx, plan)
  }

  class Repository {
    var commits: seq<Commit>
    var refs: map<Branch, Sha>
    var claims: map<TxId, Hash>
    var attempts: map<Worker, Phase>
    var published: seq<(TxId, Sha)>
    var successes: seq<(Tx, Sha)>

    function Git(): Repo
      reads this
    {
      Repo(commits, refs, claims)
    }

    function State(): Sys
      reads this
    {
      Sys(Git(), attempts, published, successes)
    }

    /** Other processes take these steps. */
    method Elsewhere(labels: seq<Label>, w: Worker)
      requires GitInv(State()) && Foreign(labels, w)
      modifies this
      ensures State() == Exec(old(State()), labels) && GitInv(State()) && Extends(old(State()), State())
      ensures At(State(), w) == At(old(State()), w)
    {
      ExecKeepsInv(State(), labels);
      ForeignLeavesPhase(State(), labels, w);
      var t := Exec(State(), labels);
      commits, refs, claims := t.repo.commits, t.repo.refs, t.repo.claims;
      attempts, published, successes := t.attempts, t.published, t.successes;
    }

    /** The checks on the claim ref and the branch ref, both read by one command. */
    method Look(tx: Tx, head: Sha, policy: Policy) returns (r: Result<Plan, Rejection>)
      requires GitInv(State())
      ensures r == Screening(Git(), tx, head, policy)
    {
      if tx.id in claims && claims[tx.id] != Hash(tx) {
        return Err(ClaimedByOther);
      }
      var existing := tx.branch in refs;
      var recovered: Option<Sha> := None;
      if existing {
        var tip := refs[tx.branch];
        assert RefOk(State(), tip);
        if tip != tx.base {
          var record := commits[tip];
          if record.trailers.Some? && record.trailers.value.0 == tx.id && record.trailers.value.1 != Hash(tx) {
            return Err(CommittedByOther);
          }
          if record.trailers == Some((tx.id, Hash(tx))) && |record.parents| == 1 && record.parents[0] == tx.base {
            recovered := Some(tip);
          } else {
            return Err(StaleBranch);
          }
        }
      } else if head != tx.base {
        return Err(StaleBase);
      }
      if recovered.None? && !policy.allowCommit {
        return Err(CommitsDisabled);
      }
      if recovered.None? && tx.push && !policy.allowPush {
        return Err(PushDisabled);
      }
      return Ok(Plan(existing, recovered));
    }

    /** update-ref with an empty old value, then a second look when another process won. */
    method CreateClaim(id: TxId, hash: Hash) returns (held: bool)
      modifies this`claims
      ensures held <==> id !in old(claims) || old(claims)[id] == hash
      ensures claims == if id in old(claims) then old(claims) else old(claims)[id := hash]
    {
      if id !in claims {
        claims := claims[id := hash];
        return true;
      }
      return claims[id] == hash;
    }

    method CommitTree(tx: Tx, tree: Tree) returns (c: Sha)
      modifies this`commits
      ensures c == old(|commits|) && commits == old(commits) + [TxCommit(tx, tree)]
    {
      c := |commits|;
      commits := commits + [Commit([tx.base], tree, Some((tx.id, Hash(tx))))];
    }

    method UpdateRef(branch: Branch, target: Sha, expectedOld: Option<Sha>) returns (ok: bool)
      modifies this`refs
      ensures ok <==> (if expectedOld.Some? then branch in old(refs) && old(refs)[branch] == expectedOld.value
                       else branch !in old(refs))
      ensures refs == if ok then old(refs)[branch := target] else old(refs)
    {
      ok := if expectedOld.Some? then branch in refs && refs[branch] == expectedOld.value else branch !in refs;
      if ok {
        refs := refs[branch := target];
      }
    }

    /** The claim is held under this request's hash, or the attempt ends. */
    method Bind(w: Worker, tx: Tx, plan: Plan) returns (held: bool)
      requires At(State(), w) == Screened(tx, plan)
      modifies this
      ensures State() == Apply(old(State()), GitTransactions.Bind(w))
      ensures held <==> (tx.id in old(claims) ==> old(claims)[tx.id] == Hash(tx))
      ensures At(State(), w) == if held then Claimed(tx, plan) else Idle
      ensures claims == (if tx.id in old(claims) then old(claims) else old(claims)[tx.id := Hash(tx)])
      ensures refs == old(refs) && commits == old(commits)
    {
      held := CreateClaim(tx.id, Hash(tx));
      attempts := attempts[w := if held then Claimed(tx, plan) else Idle];
    }

    method Resume(w: Worker, tx: Tx, plan: Plan)
      requires At(State(), w) == Claimed(tx, plan) && plan.recovered.Some?
      modifies this
      ensures State() == Apply(old(State()), GitTransactions.Recover(w))
      ensures At(State(), w) == Idle && (tx, plan.recovered.value) in successes && Git() == old(Git())
    {
      successes := successes + [(tx, plan.recovered.value)];
      attempts := attempts[w := Idle];
      assert successes[|successes| - 1] == (tx, plan.recovered.value);
    }

    method Build(w: Worker, tx: Tx, plan: Plan, tree: Tree) returns (c: Sha)
      requires At(State(), w) == Claimed(tx, plan) && plan.recovered.None?
      modifies this
      ensures State() == Apply(old(State()), GitTransactions.Build(w, tree, |old(commits)|))
      ensures At(State(), w) == Built(tx, plan, c)
      ensures c == old(|commits|) && commits == old(commits) + [Commit([tx.base], tree, Some((tx.id, Hash(tx))))]
      ensures refs == old(refs) && claims == old(claims)
    {
      c := CommitTree(tx, tree);
      attempts := attempts[w := Built(tx, plan, c)];
    }

    method Publish(w: Worker, tx: Tx, plan: Plan, c: Sha) returns (ok: bool)
      requires At(State(), w) == Built(tx, plan, c)
      modifies this
      ensures State() == Apply(old(State()), GitTransactions.Publish(w))
      ensures At(State(), w) == Idle && (ok ==> (tx, c) in successes && (tx.id, c) in published)
      ensures ok <==> if plan.existing then tx.branch in old(refs) && old(refs)[tx.branch] == tx.base else tx.branch !in old(refs)
      ensures refs == (if ok then old(refs)[tx.branch := c] else old(refs)) && claims == old(claims) && commits == old(commits)
    {
      ok := UpdateRef(tx.branch, c, if plan.existing then Some(tx.base) else None);
      attempts := attempts[w := Idle];
      if ok {
        published := published + [(tx.id, c)];
        successes := successes + [(tx, c)];
        assert successes[|successes| - 1] == (tx, c) && published[|published| - 1] == (tx.id, c);
      }
    }

    /**
    gaps are the steps other processes take between this attempt's commands.  A request is refused exactly by
    the first of its causes; one whose own commit is the tip gets that commit back; any other is published
    unless its claim is lost to another request, its tree cannot be built or the branch is moved meanwhile.
    */
    method ProcessTransaction(
      w: Worker, tx: Tx, head: Sha, policy: Policy, tree: Option<Tree>,
      gap1: seq<Label>, gap2: seq<Label>, gap3: seq<Label>)
      returns (r: Result<Sha, Failure>, ghost run: seq<Label>)
      requires GitInv(State()) && At(State(), w) == Idle && head < |commits|
      requires Foreign(gap1, w) && Foreign(gap2, w) && Foreign(gap3, w)
      modifies this
      ensures GitInv(State()) && State() == Exec(old(State()), run) && At(State(), w) == Idle
      ensures r.Err? && r.error.Refused? ==> State() == old(State())
      ensures r == Err(Refused(ClaimedByOther)) <==> ClaimedElsewhere(old(Git()), tx)
      ensures var was := old(Git());
        !ClaimedElsewhere(was, tx) && TipIsOwn(was, tx) ==> r == Ok(was.refs[tx.branch])
      ensures var was := old(Git());
        !ClaimedElsewhere(was, tx) && !TipIsOwn(was, tx) ==>
          && (r == Err(Refused(StaleBase)) <==> tx.branch !in was.refs && head != tx.base)
          && (r == Err(Refused(CommittedByOther)) <==>
            TipNames(was, tx) && was.commits[was.refs[tx.branch]].trailers.value.1 != Hash(tx))
          && (r == Err(Refused(StaleBranch)) <==>
            && !AtBase(was, tx, head) && tx.branch in was.refs
            && !(TipNames(was, tx) && was.commits[was.refs[tx.branch]].trailers.value.1 != Hash(tx)))
          && (r == Err(Refused(CommitsDisabled)) <==> AtBase(was, tx, head) && !policy.allowCommit)
          && (r == Err(Refused(PushDisabled)) <==>
            AtBase(was, tx, head) && policy.allowCommit && tx.push && !policy.allowPush)
      ensures r.Ok? || !r.error.Refused? ==> Ended(old(Git()), tx, tree, r)
      ensures (r.Ok? || !r.error.Refused?) && !TipIsOwn(old(Git()), tx) && tree.Some? && gap1 + gap2 + gap3 == [] ==>
        && r == Ok(old(|commits|)) && refs == old(refs)[tx.branch := r.value] && claims == old(claims)[tx.id := Hash(tx)]
        && commits == old(commits) + [Commit([tx.base], tree.value, Some((tx.id, Hash(tx))))]
    {
      RefusedExactly(Git(), tx, head, policy);
      hide GitInv, Exec, Screening, Foreign, Apply, Matches, Extends, TipIsOwn, TipNames, AtBase, ClaimedElsewhere;
      ghost var s0 := State();
      var look := Look(tx, head, policy);
      if look.Err? {
        ExecNone(s0);
        return Err(Refused(look.error)), [];
      }
      var plan := look.value;
      ScreenApplied(s0, w, tx, head, policy);
      ExecNone(s0);
      run := Then(s0, [], s0, Screen(w, tx, head, policy));
      attempts := attempts[w := Screened(tx, plan)];
      ExecNone(State());
      run := After(s0, run, gap1);
      Elsewhere(gap1, w);
      r, run := Carry(s0, run, w, tx, plan, tree, gap2, gap3);
    }

    /** How an attempt that was not refused ends. */
    ghost predicate Ended(was: Repo, tx: Tx, tree: Option<Tree>, r: Result<Sha, Failure>)
      reads this
    {
      && tx.id in claims && (r == Err(ClaimLost) <==> claims[tx.id] != Hash(tx))
      && (!TipIsOwn(was, tx) ==>
        && (r == Err(NotBuilt) <==> claims[tx.id] == Hash(tx) && tree.None?)
        && (r == Err(BranchMoved) ==> tx.branch in refs && (tx.branch in was.refs ==> refs[tx.branch] != tx.base)))
      && (r.Ok? ==>
        && (tx, r.value) in successes && (tx.id, r.value) in published && r.value < |commits|
        && commits[r.value].trailers == Some((tx.id, Hash(tx))) && commits[r.value].parents == [tx.base])
      && (r.Ok? && !TipIsOwn(was, tx) ==>
        tree.Some? && commits[r.value].tree == tree.value && tx.branch in refs && refs[tx.branch] == r.value)
    }

    /** The claim, the commit and the branch update. */
    method Carry(
      ghost s0: Sys, ghost before: seq<Label>, w: Worker, tx: Tx, plan: Plan, tree: Option<Tree>,
      gap2: seq<Label>, gap3: seq<Label>)
      returns (r: Result<Sha, Failure>, ghost run: seq<Label>)
      requires GitInv(s0) && GitInv(State()) && At(State(), w) == Screened(tx, plan) && State() == Exec(s0, before)
      requires Foreign(gap2, w) && Foreign(gap3, w)
      requires plan.recovered.Some? == TipIsOwn(s0.repo, tx) && plan.existing == (tx.branch in s0.repo.refs)
      modifies this
      ensures GitInv(State()) && State() == Exec(s0, run) && At(State(), w) == Idle
      ensures r.Err? ==> !r.error.Refused?
      ensures Ended(s0.repo, tx, tree, r)
      ensures plan.recovered.Some? ==> r == Ok(plan.recovered.value)
      ensures gap2 + gap3 == [] && plan.recovered.None? && tree.Some? && AloneCanPublish(old(Git()), tx, plan) ==>
        && r == Ok(old(|commits|)) && refs == old(refs)[tx.branch := r.value] && claims == old(claims)[tx.id := Hash(tx)]
        && commits == old(commits) + [Commit([tx.base], tree.value, Some((tx.id, Hash(tx))))]
    {
      hide GitInv, Exec, Foreign, Apply, Matches, Extends, TipIsOwn;
      run := Then(s0, before, State(), GitTransactions.Bind(w));
      if plan.recovered.Some? {
        PublishedClaim(State(), w, tx, plan);
      }
      var held := Bind(w, tx, plan);
      if !held {
        return Err(ClaimLost), run;
      }
      ghost var bound := State();
      ExecNone(bound);
      run := After(s0, run, gap2);
      Elsewhere(gap2, w);
      ClaimStays(bound, State(), tx.id);
      if plan.recovered.Some? {
        run := Then(s0, run, State(), GitTransactions.Recover(w));
        Resume(w, tx, plan);
        SuccessHolds(State(), tx, plan.recovered.value);
        return Ok(plan.recovered.value), run;
      }
      if tree.None? {
        run := Then(s0, run, State(), Stop(w));
        StopApplied(State(), w);
        attempts := attempts[w := Idle];
        return Err(NotBuilt), run;
      }
      r, run := BuildAndPublish(s0, run, w, tx, plan, tree.value, gap3);
      BranchStays(s0, run, tx.branch);
    }

    method BuildAndPublish(
      ghost s0: Sys, ghost before: seq<Label>, w: Worker, tx: Tx, plan: Plan, tree: Tree, gap3: seq<Label>)
      returns (r: Result<Sha, Failure>, ghost run: seq<Label>)
      requires GitInv(State()) && At(State(), w) == Claimed(tx, plan) && plan.recovered.None? && State() == Exec(s0, before)
      requires Foreign(gap3, w) && tx.id in claims && claims[tx.id] == Hash(tx)
      modifies this
      ensures GitInv(State()) && State() == Exec(s0, run) && At(State(), w) == Idle
      ensures tx.id in claims && claims[tx.id] == Hash(tx)
      ensures r.Ok? || r == Err(BranchMoved)
      ensures r == Err(BranchMoved) ==> tx.branch in refs || plan.existing
      ensures r == Err(BranchMoved) ==> (plan.existing && tx.branch in refs ==> refs[tx.branch] != tx.base)
      ensures r.Ok? ==>
        && (tx, r.value) in successes && (tx.id, r.value) in published && r.value < |commits|
        && commits[r.value] == Commit([tx.base], tree, Some((tx.id, Hash(tx))))
        && tx.branch in refs && refs[tx.branch] == r.value
      ensures gap3 == [] && Swaps(old(Git()), tx, plan) ==>
        && r == Ok(old(|commits|)) && refs == old(refs)[tx.branch := r.value] && claims == old(claims)
        && commits == old(commits) + [Commit([tx.base], tree, Some((tx.id, Hash(tx))))]
    {
      hide GitInv, Exec, Foreign, Apply, Matches, Extends;
      run := Then(s0, before, State(), GitTransactions.Build(w, tree, |commits|));
      var c := Build(w, tx, plan, tree);
      ghost var built := State();
      ExecNone(built);
      run := After(s0, run, gap3);
      Elsewhere(gap3, w);
      ClaimStays(built, State(), tx.id);
      CommitStays(built, State(), c);
      run := Then(s0, run, State(), GitTransactions.Publish(w));
      var ok := Publish(w, tx, plan, c);
      if !ok {
        return Err(BranchMoved), run;
      }
      SuccessHolds(State(), tx, c);
      return Ok(c), run;
    }
  }

  lemma ClaimStays(s: Sys, t: Sys, id: TxId)
    requires Extends(s, t) && id in s.repo.claims
    ensures id in t.repo.claims && t.repo.claims[id] == s.repo.claims[id]
  {
  }

  lemma BranchStays(s: Sys, run: seq<Label>, b: Branch)
    requires GitInv(s)
    ensures b in s.repo.refs ==> b in Exec(s, run).repo.refs
  {
    ExecKeepsInv(s, run);
  }

  lemma CommitStays(s: Sys, t: Sys, c: Sha)
    requires Extends(s, t) && c < |s.repo.commits|
    ensures c < |t.repo.commits| && t.repo.commits[c] == s.repo.commits[c]
  {
  }

  lemma ScreenApplied(s: Sys, w: Worker, tx: Tx, head: Sha, policy: Policy)
    requires At(s, w) == Idle && head < |s.repo.commits| && Screening(s.repo, tx, head, policy).Ok?
    ensures Apply(s, Screen(w, tx, head, policy)) ==
      s.(attempts := s.attempts[w := Screened(tx, Screening(s.repo, tx, head, policy).value)])
  {
  }

  lemma StopApplied(s: Sys, w: Worker)
    ensures Apply(s, Stop(w)) == s.(attempts := s.attempts[w := Idle])
  {
  }

  /** Recovering a published commit, the claim is already this transaction's own. */
  lemma PublishedClaim(s: Sys, w: Worker, tx: Tx, plan: Plan)
    requires GitInv(s) && At(s, w) == Screened(tx, plan) && plan.recovered.Some?
    ensures tx.id in s.repo.claims && s.repo.claims[tx.id] == Hash(tx)
  {
    assert PhaseOk(s, s.attempts[w]);
    var i :| 0 <= i < |s.published| && s.published[i] == (tx.id, plan.recovered.value);
    assert PublicationOk(s.repo, s.published[i].0, s.published[i].1);
  }

  lemma SuccessHolds(s: Sys, tx: Tx, c: Sha)
    requires GitInv(s) && (tx, c) in s.successes
    ensures (tx.id, c) in s.published && c < |s.repo.commits|
    ensures s.repo.commits[c].trailers == Some((tx.id, Hash(tx))) && s.repo.commits[c].parents == [tx.base]
  {
    var i :| 0 <= i < |s.successes| && s.successes[i] == (tx, c);
    assert SuccessOk(s, s.successes[i].0, s.successes[i].1);
  }

  lemma ExecNone(s: Sys)
    ensures Exec(s, []) == s
  {
  }

  /** The run so far, continued by others. */
  lemma After(s0: Sys, run: seq<Label>, gap: seq<Label>) returns (longer: seq<Label>)
    ensures longer == run + gap && Exec(s0, longer) == Exec(Exec(s0, run), gap)
  {
    longer := run + gap;
    ExecAppend(s0, run, gap);
  }

  /** The run so far, continued by one step of ours. */
  lemma Then(s0: Sys, run: seq<Label>, s: Sys, l: Label) returns (longer: seq<Label>)
    requires Exec(s0, run) == s && GitInv(s)
    ensures longer == run + [l] && Exec(s0, longer) == Apply(s, l) && GitInv(Apply(s, l))
  {
    longer := run + [l];
    ExecLast(s0, run, l);
    ApplyKeepsInv(s, l);
  }
}
