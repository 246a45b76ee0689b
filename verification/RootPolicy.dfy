/**
Push policy inherited from configured roots.

A path is the list of components of a resolved absolute path, so "is the root equal to or an
ancestor of the path" is "is a prefix of".  `Policy` is the reference meaning (walk up from the
path to the closest configured ancestor); the methods follow the loops of the program.
*/
module RootPolicy {
  import opened Prelude

  type Path = seq<string>

  datatype Root = Root(path: Path, push: bool)

  function Parent(p: Path): Path
    requires p != []
  {
    p[..|p| - 1]
  }

  /** The policy of the closest root at or above p; two entries for one path count as "push". */
  function Policy(roots: set<Root>, p: Path): Option<bool>
    decreases |p|
  {
    if Root(p, true) in roots then Some(true)
    else if Root(p, false) in roots then Some(false)
    else if p == [] then None
    else Policy(roots, Parent(p))
  }

  /** The policy p would have if it were not a root itself. */
  function PolicyAbove(roots: set<Root>, p: Path): Option<bool> {
    if p == [] then None else Policy(roots, Parent(p))
  }

  lemma {:induction false} PolicyOfDeepest(roots: set<Root>, p: Path, best: Root)
    requires best in roots && best.path <= p
    requires forall r :: r in roots && r.path <= p ==> |r.path| <= |best.path|
    requires Root(best.path, true) in roots ==> best.push
    ensures Policy(roots, p) == Some(best.push)
    decreases |p|
  {
    if best.path == p {
    } else {
      assert Root(p, true).path <= p && Root(p, false).path <= p;
      assert best.path <= Parent(p);
      PolicyOfDeepest(roots, Parent(p), best);
    }
  }

  lemma {:induction false} PolicyUncovered(roots: set<Root>, p: Path)
    requires forall r :: r in roots ==> !(r.path <= p)
    ensures Policy(roots, p) == None
    decreases |p|
  {
    assert Root(p, true).path <= p && Root(p, false).path <= p;
    if p != [] {
      PolicyUncovered(roots, Parent(p));
    }
  }

  /** At or above the path, and no other root there is deeper. */
  ghost predicate Deepest(roots: set<Root>, p: Path, r: Root) {
    r in roots && r.path <= p && forall q :: q in roots && q.path <= p ==> |q.path| <= |r.path|
  }

  lemma DeepestExists(roots: set<Root>, p: Path, some: Root) returns (best: Root)
    requires some in roots && some.path <= p
    ensures Deepest(roots, p, best) && (Root(best.path, true) in roots ==> best.push)
    decreases |p| - |some.path|
  {
    if r :| r in roots && r.path <= p && |r.path| > |some.path| {
      best := DeepestExists(roots, p, r);
    } else {
      best := if Root(some.path, true) in roots then Root(some.path, true) else some;
    }
  }

  /** The policy is that of the deepest root at or above the path; between two for one place, push wins. */
  lemma PolicyExactly(roots: set<Root>, p: Path)
    ensures Policy(roots, p) == Some(true) <==> exists r :: Deepest(roots, p, r) && r.push
    ensures Policy(roots, p) == Some(false) <==> (exists r :: Deepest(roots, p, r)) && forall r :: Deepest(roots, p, r) ==> !r.push
    ensures Policy(roots, p) == None <==> forall r :: r in roots ==> !(r.path <= p)
  {
    if some :| some in roots && some.path <= p {
      var best := DeepestExists(roots, p, some);
      PolicyOfDeepest(roots, p, best);
      forall r | Deepest(roots, p, r)
        ensures r.path == best.path
      {
        assert |r.path| == |best.path|;
      }
    } else {
      PolicyUncovered(roots, p);
    }
  }

  lemma {:induction false} PolicyLocal(s: set<Root>, t: set<Root>, p: Path)
    requires forall r: Root :: |r.path| <= |p| ==> (r in s <==> r in t)
    ensures Policy(s, p) == Policy(t, p)
    decreases |p|
  {
    assert Root(p, true) in s <==> Root(p, true) in t;
    assert Root(p, false) in s <==> Root(p, false) in t;
    if p != [] {
      PolicyLocal(s, t, Parent(p));
    }
  }

  /** The longest matching root decides: the program keeps the maximum of (depth, push). */
  method InheritedRootPush(roots: seq<Root>, p: Path) returns (push: Option<bool>)
    ensures push == Policy(Elements(roots), p)
  {
    var best: Option<Root> := None;
    for i := 0 to |roots|
      invariant best.None? ==> forall r :: r in roots[..i] ==> !(r.path <= p)
      invariant best.Some? ==> best.value in roots[..i] && best.value.path <= p
      invariant best.Some? ==> forall r :: r in roots[..i] && r.path <= p ==>
        |r.path| <= |best.value.path| && (|r.path| == |best.value.path| && r.push ==> best.value.push)
    {
      var root := roots[i];
      if root.path <= p {
        if best.None? || |root.path| > |best.value.path|
           || (|root.path| == |best.value.path| && root.push && !best.value.push) {
          best := Some(root);
        }
      }
      assert roots[..i + 1] == roots[..i] + [root];
    }
    assert roots[..|roots|] == roots;
    if best.None? {
      PolicyUncovered(Elements(roots), p);
      return None;
    }
    PolicyOfDeepest(Elements(roots), p, best.value);
    return Some(best.value.push);
  }

  // ---------------------------------------------------------------- pruning

  /** One policy per path: the last entry for a path replaces the earlier ones. */
  function Canonical(roots: seq<Root>): map<Path, bool> {
    if roots == [] then map[]
    else var last := roots[|roots| - 1]; Canonical(roots[..|roots| - 1])[last.path := last.push]
  }

  function RootsOf(m: map<Path, bool>): set<Root> {
    set p | p in m :: Root(p, m[p])
  }

  ghost predicate OnePolicyPerPath(roots: set<Root>) {
    forall r, q :: r in roots && q in roots && r.path == q.path ==> r == q
  }

  /** The roots that are not already implied by what lies above them. */
  function Kept(roots: set<Root>): set<Root> {
    set r | r in roots && PolicyAbove(roots, r.path) != Some(r.push)
  }

  lemma {:induction false} CanonicalContents(roots: seq<Root>)
    ensures forall r :: r in roots ==> r.path in Canonical(roots)
    ensures forall p :: p in Canonical(roots) ==> Root(p, Canonical(roots)[p]) in roots
    ensures OnePolicyPerPath(RootsOf(Canonical(roots)))
  {
    if roots != [] {
      var init := roots[..|roots| - 1];
      CanonicalContents(init);
      assert roots == init + [roots[|roots| - 1]];
    }
  }

  /** Pruning never changes the policy of any path. */
  lemma {:induction false} KeptPreservesPolicy(roots: set<Root>, p: Path)
    requires OnePolicyPerPath(roots)
    ensures Policy(Kept(roots), p) == Policy(roots, p)
    decreases |p|
  {
    if p != [] {
      KeptPreservesPolicy(roots, Parent(p));
    }
    if Root(p, true) in roots {
      assert Root(p, false) !in roots by {
        assert Root(p, true).path == Root(p, false).path;
      }
    }
  }

  /** Every subset with the same meaning contains the pruned set: it is the unique minimum. */
  lemma KeptIsLeast(roots: set<Root>, other: set<Root>)
    requires OnePolicyPerPath(roots)
    requires other <= roots
    requires forall p :: Policy(other, p) == Policy(roots, p)
    ensures Kept(roots) <= other
  {
    forall r | r in Kept(roots)
      ensures r in other
    {
      assert Policy(other, r.path) == Policy(roots, r.path);
      assert Root(r.path, true) in roots ==> r == Root(r.path, true);
      assert Root(r.path, false) in roots ==> r == Root(r.path, false);
      assert PolicyAbove(other, r.path) == PolicyAbove(roots, r.path);
    }
  }

  lemma KeptIsIdempotent(roots: set<Root>)
    requires OnePolicyPerPath(roots)
    ensures Kept(Kept(roots)) == Kept(roots)
  {
    forall r | r in Kept(roots)
      ensures PolicyAbove(Kept(roots), r.path) == PolicyAbove(roots, r.path)
    {
      if r.path != [] {
        KeptPreservesPolicy(roots, Parent(r.path));
      }
    }
  }

  /**
  Pruning a configured list keeps the meaning of that list exactly when no path is listed as
  "push" and later relisted as "no push": the lookup lets any "push" entry win, pruning lets the
  last entry win.
  */
  lemma PruningFaithfulIff(roots: seq<Root>)
    ensures (forall p :: Policy(Kept(RootsOf(Canonical(roots))), p) == Policy(Elements(roots), p))
      <==> (forall r :: r in roots && r.push ==> r in RootsOf(Canonical(roots)))
  {
    CanonicalContents(roots);
    var c := RootsOf(Canonical(roots));
    if forall r :: r in roots && r.push ==> r in RootsOf(Canonical(roots)) {
      forall p
        ensures Policy(Kept(c), p) == Policy(Elements(roots), p)
      {
        KeptPreservesPolicy(c, p);
        CanonicalMeansTheList(roots, p);
      }
    }
    if r :| r in roots && r.push && r !in RootsOf(Canonical(roots)) {
      KeptPreservesPolicy(c, r.path);
      assert Root(r.path, true) == r;
      assert Policy(Elements(roots), r.path) == Some(true);
      assert Root(r.path, false) in c && Root(r.path, true) !in c;
    }
  }

  lemma {:induction false} CanonicalMeansTheList(roots: seq<Root>, p: Path)
    requires forall r :: r in roots ==> r.path in Canonical(roots)
    requires forall q :: q in Canonical(roots) ==> Root(q, Canonical(roots)[q]) in roots
    requires forall r :: r in roots && r.push ==> r in RootsOf(Canonical(roots))
    ensures Policy(RootsOf(Canonical(roots)), p) == Policy(Elements(roots), p)
    decreases |p|
  {
    if Root(p, true) in roots {
      assert Root(p, true) in RootsOf(Canonical(roots));
    } else if Root(p, false) in roots {
      assert p in Canonical(roots);
    } else if p != [] {
      assert p !in Canonical(roots);
      CanonicalMeansTheList(roots, Parent(p));
    }
  }

  /** A repeated root for which pruning does change the answer. */
  lemma RepeatedRootLosesPush()
    ensures var roots := [Root(["/", "w"], true), Root(["/", "w"], false)];
      Policy(Elements(roots), ["/", "w"]) == Some(true) &&
      Policy(Kept(RootsOf(Canonical(roots))), ["/", "w"]) == Some(false)
  {
    var roots := [Root(["/", "w"], true), Root(["/", "w"], false)];
    assert roots[1] in roots && roots[0] in roots;
    CanonicalContents(roots);
    var m := Canonical(roots);
    assert m[["/", "w"]] == false;
    assert Root(["/", "w"], false) in RootsOf(m);
    KeptPreservesPolicy(RootsOf(m), ["/", "w"]);
  }

  ghost predicate SortedByDepth(roots: seq<Root>) {
    forall i, j :: 0 <= i < j < |roots| ==> |roots[i].path| <= |roots[j].path|
  }

  ghost predicate DistinctPaths(roots: seq<Root>) {
    forall i, j :: 0 <= i < j < |roots| ==> roots[i].path != roots[j].path
  }

  /** How many of the sorted roots are at most as deep as r. */
  function Rank(r: Root, roots: seq<Root>): (k: nat)
    requires SortedByDepth(roots)
    ensures k <= |roots|
    ensures forall i :: 0 <= i < k ==> |roots[i].path| <= |r.path|
    ensures forall i :: k <= i < |roots| ==> |r.path| < |roots[i].path|
  {
    if roots == [] then 0
    else if |roots[|roots| - 1].path| <= |r.path| then |roots|
    else Rank(r, roots[..|roots| - 1])
  }

  function InsertByDepth(r: Root, roots: seq<Root>): (s: seq<Root>)
    requires SortedByDepth(roots) && DistinctPaths(roots)
    requires forall i :: 0 <= i < |roots| ==> roots[i].path != r.path
    ensures SortedByDepth(s) && DistinctPaths(s)
    ensures Elements(s) == Elements(roots) + {r}
  {
    var k := Rank(r, roots);
    var s := roots[..k] + [r] + roots[k..];
    InsertedElements(r, roots, k, s);
    InsertedOrder(r, roots, k, s);
    s
  }

  lemma InsertedElements(r: Root, roots: seq<Root>, k: nat, s: seq<Root>)
    requires k <= |roots| && s == roots[..k] + [r] + roots[k..]
    ensures Elements(s) == Elements(roots) + {r}
  {
    assert roots == roots[..k] + roots[k..];
    forall x
      ensures x in s <==> x in roots || x == r
    {
    }
  }

  lemma InsertedOrder(r: Root, roots: seq<Root>, k: nat, s: seq<Root>)
    requires SortedByDepth(roots) && DistinctPaths(roots)
    requires forall i :: 0 <= i < |roots| ==> roots[i].path != r.path
    requires k <= |roots| && s == roots[..k] + [r] + roots[k..]
    requires forall i :: 0 <= i < k ==> |roots[i].path| <= |r.path|
    requires forall i :: k <= i < |roots| ==> |r.path| < |roots[i].path|
    ensures SortedByDepth(s) && DistinctPaths(s)
  {
    forall i, j | 0 <= i < j < |s|
      ensures |s[i].path| <= |s[j].path| && s[i].path != s[j].path
    {
      var x := if i < k then roots[i] else if i == k then r else roots[i - 1];
      var y := if j < k then roots[j] else if j == k then r else roots[j - 1];
      assert s[i] == x && s[j] == y;
    }
  }

  /** Stable sort by depth; entries of one depth never cover each other. */
  function SortByDepth(roots: seq<Root>): (s: seq<Root>)
    requires DistinctPaths(roots)
    ensures SortedByDepth(s) && DistinctPaths(s)
    ensures Elements(s) == Elements(roots)
  {
    if roots == [] then []
    else
      var init := roots[..|roots| - 1];
      var rest := SortByDepth(init);
      assert roots == init + [roots[|roots| - 1]];
      assert forall i :: 0 <= i < |rest| ==> rest[i] in Elements(rest);
      InsertByDepth(roots[|roots| - 1], rest)
  }

  /** The dictionary of canonical roots: a repeated path is overwritten where it stands. */
  method CanonicalRoots(roots: seq<Root>) returns (canonical: seq<Root>)
    ensures DistinctPaths(canonical)
    ensures Elements(canonical) == RootsOf(Canonical(roots))
  {
    canonical := [];
    for i := 0 to |roots|
      invariant DistinctPaths(canonical)
      invariant Elements(canonical) == RootsOf(Canonical(roots[..i]))
    {
      var k := 0;
      while k < |canonical| && canonical[k].path != roots[i].path
        invariant 0 <= k <= |canonical|
        invariant forall j :: 0 <= j < k ==> canonical[j].path != roots[i].path
      {
        k := k + 1;
      }
      ghost var before := canonical;
      canonical := if k < |canonical| then canonical[k := roots[i]] else canonical + [roots[i]];
      OverwriteOne(before, canonical, k, roots[i], Canonical(roots[..i]));
      assert roots[..i + 1][..i] == roots[..i];
    }
    assert roots[..|roots|] == roots;
  }

  lemma OverwriteOne(before: seq<Root>, after: seq<Root>, k: nat, r: Root, m: map<Path, bool>)
    requires DistinctPaths(before) && k <= |before|
    requires forall j :: 0 <= j < k ==> before[j].path != r.path
    requires k < |before| ==> before[k].path == r.path
    requires after == if k < |before| then before[k := r] else before + [r]
    requires Elements(before) == RootsOf(m)
    ensures DistinctPaths(after)
    ensures Elements(after) == RootsOf(m[r.path := r.push])
  {
    var m' := m[r.path := r.push];
    assert after[k] == r;
    forall x | x in Elements(after)
      ensures x in RootsOf(m')
    {
      var j :| 0 <= j < |after| && after[j] == x;
      if j != k {
        assert before[j] == x && x in Elements(before);
        assert x.path != r.path;
        assert x in RootsOf(m);
        assert x.path in m' && x == Root(x.path, m'[x.path]);
      } else {
        assert r.path in m' && r == Root(r.path, m'[r.path]);
      }
    }
    forall x | x in RootsOf(m')
      ensures x in Elements(after)
    {
      if x.path == r.path {
        assert x == r;
      } else {
        assert x in RootsOf(m);
        assert x in Elements(before);
        var j :| 0 <= j < |before| && before[j] == x;
        assert after[j] == x;
      }
    }
  }

  /** After i roots, exactly the minimal ones among them are kept, in order. */
  ghost predicate KeptSoFar(all: set<Root>, ordered: seq<Root>, i: nat, kept: seq<Root>) {
    && i <= |ordered| && Elements(kept) == Kept(all) * Elements(ordered[..i])
    && SortedByDepth(kept) && DistinctPaths(kept)
  }

  ghost predicate Ordered(all: set<Root>, ordered: seq<Root>) {
    && OnePolicyPerPath(all) && Elements(ordered) == all && SortedByDepth(ordered) && DistinctPaths(ordered)
  }

  lemma KeepStep(all: set<Root>, ordered: seq<Root>, i: nat, kept: seq<Root>)
    requires Ordered(all, ordered) && i < |ordered| && KeptSoFar(all, ordered, i, kept)
    ensures KeptSoFar(all, ordered, i + 1,
      if Policy(Elements(kept), ordered[i].path) == Some(ordered[i].push) then kept else kept + [ordered[i]])
  {
    hide Policy, PolicyAbove, Kept, OnePolicyPerPath;
    PolicyWhenVisited(all, ordered, i, kept);
    KeptOneMore(all, ordered, i, kept,
      if Policy(Elements(kept), ordered[i].path) == Some(ordered[i].push) then kept else kept + [ordered[i]]);
  }

  lemma AllKept(all: set<Root>, ordered: seq<Root>, kept: seq<Root>)
    requires Ordered(all, ordered) && KeptSoFar(all, ordered, |ordered|, kept)
    ensures Elements(kept) == Kept(all) && SortedByDepth(kept) && DistinctPaths(kept)
  {
    assert ordered[..|ordered|] == ordered;
  }

  /** Visit roots from shallow to deep and keep those whose inherited policy differs. */
  method PruneRedundantRoots(roots: seq<Root>) returns (kept: seq<Root>)
    ensures Elements(kept) == Kept(RootsOf(Canonical(roots)))
    ensures SortedByDepth(kept) && DistinctPaths(kept)
  {
    var canonical := CanonicalRoots(roots);
    CanonicalContents(roots);
    ghost var all := RootsOf(Canonical(roots));
    var ordered := SortByDepth(canonical);
    assert Ordered(all, ordered);
    kept := [];
    assert KeptSoFar(all, ordered, 0, kept);
    hide *;
    for i := 0 to |ordered|
      invariant KeptSoFar(all, ordered, i, kept)
    {
      var inherited := InheritedRootPush(kept, ordered[i].path);
      KeepStep(all, ordered, i, kept);
      if !(inherited.Some? && inherited.value == ordered[i].push) {
        kept := kept + [ordered[i]];
      }
    }
    AllKept(all, ordered, kept);
  }

  lemma KeptOneMore(all: set<Root>, ordered: seq<Root>, i: nat, before: seq<Root>, after: seq<Root>)
    requires i < |ordered| && Elements(ordered) == all
    requires Elements(before) == Kept(all) * Elements(ordered[..i])
    requires after == if PolicyAbove(all, ordered[i].path) == Some(ordered[i].push) then before else before + [ordered[i]]
    ensures Elements(after) == Kept(all) * Elements(ordered[..i + 1])
  {
    var root := ordered[i];
    assert ordered[..i + 1] == ordered[..i] + [root];
    assert Elements(ordered[..i + 1]) == Elements(ordered[..i]) + {root};
    assert root in Kept(all) <==> PolicyAbove(all, root.path) != Some(root.push);
    if PolicyAbove(all, root.path) != Some(root.push) {
      assert Elements(after) == Elements(before) + {root};
    }
  }

  /** When root i is visited, everything above it that is kept has already been kept. */
  lemma PolicyWhenVisited(all: set<Root>, ordered: seq<Root>, i: nat, kept: seq<Root>)
    requires OnePolicyPerPath(all) && Elements(ordered) == all
    requires SortedByDepth(ordered) && DistinctPaths(ordered) && i < |ordered|
    requires Elements(kept) == Kept(all) * Elements(ordered[..i])
    ensures Policy(Elements(kept), ordered[i].path) == PolicyAbove(all, ordered[i].path)
    ensures forall k :: 0 <= k < |kept| ==> |kept[k].path| <= |ordered[i].path| && kept[k].path != ordered[i].path
  {
    var p := ordered[i].path;
    forall k | 0 <= k < |kept|
      ensures |kept[k].path| <= |p| && kept[k].path != p
    {
      assert kept[k] in Elements(kept);
      var j :| 0 <= j < i && ordered[j] == kept[k];
    }
    if p != [] {
      forall r: Root | |r.path| <= |Parent(p)|
        ensures r in Elements(kept) <==> r in Kept(all)
      {
        if r in Kept(all) {
          assert r in Elements(ordered);
          var j :| 0 <= j < |ordered| && ordered[j] == r;
          assert j < i;
          assert ordered[..i][j] == r;
        }
      }
      PolicyLocal(Elements(kept), Kept(all), Parent(p));
      KeptPreservesPolicy(all, Parent(p));
    }
    assert Root(p, true) !in kept && Root(p, false) !in kept;
  }

  // ---------------------------------------------------------------- configuration migration

  datatype RootEntry = LegacyRoot(path: Path) | PolicyRoot(path: Path, push: bool)

  datatype Config = Config(version: int, roots: seq<RootEntry>, overrides: map<string, bool>, enabled: seq<string>)

  datatype ConfigError = UnsupportedVersion | MalformedRoots

  function RuntimeRoot(e: RootEntry): Root {
    match e
    case LegacyRoot(p) => Root(p, false)
    case PolicyRoot(p, b) => Root(p, b)
  }

  function RuntimeRoots(entries: seq<RootEntry>): seq<Root> {
    seq(|entries|, i requires 0 <= i < |entries| => RuntimeRoot(entries[i]))
  }

  function AsEntries(roots: seq<Root>): seq<RootEntry> {
    seq(|roots|, i requires 0 <= i < |roots| => PolicyRoot(roots[i].path, roots[i].push))
  }

  /** Effective push permission: override, then the legacy list before version 2, then the roots. */
  function PushAllowed(cfg: Config, repo: string, path: Path): bool {
    if repo in cfg.overrides then cfg.overrides[repo]
    else if cfg.version != 2 && repo in cfg.enabled then true
    else Policy(Elements(RuntimeRoots(cfg.roots)), path) == Some(true)
  }

  method MigrateConfig(raw: Config) returns (r: Result<Config, ConfigError>)
    ensures raw.version == 2 ==> r == Ok(raw)
    ensures raw.version !in {1, 2} ==> r == Err(UnsupportedVersion)
    ensures raw.version == 1 ==> (r.Ok? <==> forall e :: e in raw.roots ==> e.LegacyRoot?)
    ensures raw.version == 1 && r.Ok? ==>
      && r.value.version == 2 && r.value.enabled == []
      && r.value.overrides == (map id | id in raw.enabled :: true)
      && Elements(RuntimeRoots(r.value.roots)) == Kept(RootsOf(Canonical(RuntimeRoots(raw.roots))))
  {
    if raw.version == 2 {
      return Ok(raw);
    }
    if raw.version != 1 {
      return Err(UnsupportedVersion);
    }
    if exists e :: e in raw.roots && !e.LegacyRoot? {
      return Err(MalformedRoots);
    }
    var kept := PruneRedundantRoots(RuntimeRoots(raw.roots));
    var entries := AsEntries(kept);
    assert RuntimeRoots(entries) == kept;
    return Ok(Config(2, entries, map id | id in raw.enabled :: true, []));
  }

  /**
  Migration from version 1 changes no repository's permission exactly when every override already
  present in the version-1 file agrees with the legacy list (the overrides are replaced).
  */
  lemma MigrationFaithfulIff(raw: Config, migrated: Config)
    requires raw.version == 1 && forall e :: e in raw.roots ==> e.LegacyRoot?
    requires migrated.version == 2 && migrated.overrides == (map id | id in raw.enabled :: true)
    requires Elements(RuntimeRoots(migrated.roots)) == Kept(RootsOf(Canonical(RuntimeRoots(raw.roots))))
    ensures (forall id, p :: PushAllowed(migrated, id, p) == PushAllowed(raw, id, p))
      <==> (forall id :: id in raw.overrides ==> raw.overrides[id] == (id in raw.enabled))
  {
    var roots := RuntimeRoots(raw.roots);
    assert forall r :: r in roots ==> !r.push;
    PruningFaithfulIff(roots);
    forall p
      ensures Policy(Elements(roots), p) != Some(true)
    {
      AllDenied(Elements(roots), p);
    }
    forall id, p
      ensures PushAllowed(migrated, id, p) == (id in raw.enabled)
    {
      assert Policy(Elements(RuntimeRoots(migrated.roots)), p) == Policy(Elements(roots), p);
    }
    if id :| id in raw.overrides && raw.overrides[id] != (id in raw.enabled) {
      assert PushAllowed(migrated, id, []) != PushAllowed(raw, id, []);
    }
  }

  /** Deepest among the configured entries at or above the path. */
  ghost predicate Governs(cfg: Config, e: RootEntry, path: Path) {
    e in cfg.roots && e.path <= path && forall f :: f in cfg.roots && f.path <= path ==> |f.path| <= |e.path|
  }

  /**
  A repository may push if and only if its own override says so, or it has none and either an old file
  lists it or a deepest configured root at or above it has the push flag.
  */
  lemma PushAllowedExactly(cfg: Config, repo: string, path: Path)
    ensures PushAllowed(cfg, repo, path) <==>
      if repo in cfg.overrides then cfg.overrides[repo]
      else (cfg.version != 2 && repo in cfg.enabled) || exists e :: Governs(cfg, e, path) && e.PolicyRoot? && e.push
  {
    var rs := RuntimeRoots(cfg.roots);
    var roots := Elements(rs);
    PolicyExactly(roots, path);
    forall e | e in cfg.roots
      ensures RuntimeRoot(e) in roots
    {
      var i :| 0 <= i < |cfg.roots| && cfg.roots[i] == e;
      assert rs[i] == RuntimeRoot(e);
    }
    forall r | r in roots
      ensures exists e :: e in cfg.roots && RuntimeRoot(e) == r
    {
      var i :| 0 <= i < |rs| && rs[i] == r;
      assert RuntimeRoot(cfg.roots[i]) == r;
    }
    if e :| Governs(cfg, e, path) && e.PolicyRoot? && e.push {
      assert Deepest(roots, path, RuntimeRoot(e));
    }
    if r :| Deepest(roots, path, r) && r.push {
      var e :| e in cfg.roots && RuntimeRoot(e) == r;
      forall f | f in cfg.roots && f.path <= path
        ensures |f.path| <= |e.path|
      {
        assert RuntimeRoot(f) in roots;
      }
      assert Governs(cfg, e, path);
    }
  }

  lemma {:induction false} AllDenied(roots: set<Root>, p: Path)
    requires forall r :: r in roots ==> !r.push
    ensures Policy(roots, p) != Some(true)
    decreases |p|
  {
    assert Root(p, true) !in roots;
    if p != [] {
      AllDenied(roots, Parent(p));
    }
  }
}
