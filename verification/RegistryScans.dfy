/**
What the two registry scans keep and how they relate: the cheap scan gives the full scan's answer, IDs
are never reused or rebound, and paths stay unique, over any sequence of scans of either kind.
*/
module RegistryScans {
  import opened Prelude
  import opened RegistryRules

  /** A dictionary has one entry per key. */
  predicate Keyed(prev: Listing) {
    forall i, j :: 0 <= i < j < |prev| ==> prev[i].0 != prev[j].0
  }

  ghost predicate Lists(prev: Listing, repos: map<Id, Entry>) {
    Keyed(prev) && forall id, e :: (id, e) in prev <==> id in repos && repos[id] == e
  }

  // ---------------------------------------------------------------- discovery

  function Sites(t: Tree): set<Candidate> {
    {t.site} + set k, c | 0 <= k < |t.children| && c in Sites(t.children[k]) :: c
  }

  function AllSites(roots: seq<Tree>): set<Candidate> {
    set k, c | 0 <= k < |roots| && c in Sites(roots[k]) :: c
  }

  ghost predicate SortOf(cs: seq<Candidate>, all: set<Candidate>) {
    NoDuplicates(cs) && forall c :: c in cs <==> c in all
  }

  predicate Distinct(cs: seq<Candidate>) {
    forall i, j :: 0 <= i < j < |cs| ==> cs[i].path != cs[j].path
  }

  /** A file system: directories lie below their roots, one at each path; and sorting loses nothing. */
  ghost predicate Discovered(s: Scan) {
    && (forall all: set<Candidate> :: SortOf(s.order(all), all))
    && (forall k, c :: 0 <= k < |s.roots| && c in Sites(s.roots[k]) ==>
      s.roots[k].site.path <= c.path && (c.identity.Some? ==> c.isRepo))
    && (forall c, d :: c in AllSites(s.roots) && d in AllSites(s.roots) && c.path == d.path ==> c == d)
  }

  lemma {:induction false} WalkWithin(cheap: bool, t: Tree)
    ensures Walk(cheap, t) <= Sites(t)
  {
    forall k | 0 <= k < |t.children|
      ensures Walk(cheap, t.children[k]) <= Sites(t.children[k])
    {
      WalkWithin(cheap, t.children[k]);
    }
  }

  lemma {:induction false} WalkStops(cheap: bool, t: Tree)
    ensures forall c :: c in Walk(cheap, t) ==> Stops(cheap, c)
  {
    forall k | 0 <= k < |t.children|
      ensures forall c :: c in Walk(cheap, t.children[k]) ==> Stops(cheap, c)
    {
      WalkStops(cheap, t.children[k]);
    }
  }

  lemma DiscoveredWithin(cheap: bool, roots: seq<Tree>)
    ensures Discover(cheap, roots) <= AllSites(roots)
    ensures forall c :: c in Discover(cheap, roots) ==>
      (if cheap then c.marker.Some? else c.isRepo) && exists k :: 0 <= k < |roots| && c in Sites(roots[k])
  {
    forall c | c in Discover(cheap, roots)
      ensures c in AllSites(roots) && (if cheap then c.marker.Some? else c.isRepo)
      ensures exists k :: 0 <= k < |roots| && c in Sites(roots[k])
    {
      var k :| 0 <= k < |roots| && c in DiscoverRoot(cheap, roots[k]);
      WalkWithin(cheap, roots[k]);
      WalkStops(cheap, roots[k]);
      assert c in Sites(roots[k]);
    }
  }

  /** What either discovery returns: each tree once, below an available root, and just what was found. */
  lemma CandidatesAreTrees(cheap: bool, s: Scan)
    requires Discovered(s)
    ensures var cs := Candidates(cheap, s);
      && Distinct(cs) && (forall c :: c in cs <==> c in Discover(cheap, s.roots))
      && forall c :: c in cs ==> Under(c.path, s.Available()) && (c.identity.Some? ==> c.isRepo)
  {
    DiscoveredWithin(cheap, s.roots);
    var cs := Candidates(cheap, s);
    assert SortOf(cs, Discover(cheap, s.roots));
    forall c | c in cs
      ensures Under(c.path, s.Available()) && (c.identity.Some? ==> c.isRepo)
    {
      var k :| 0 <= k < |s.roots| && c in Sites(s.roots[k]);
      assert s.Available()[k] <= c.path;
    }
    forall i, j | 0 <= i < j < |cs|
      ensures cs[i].path != cs[j].path
    {
      assert cs[i] in cs && cs[j] in cs;
    }
  }

  lemma {:induction false} WalksAgree(t: Tree)
    requires forall c :: c in Walk(true, t) ==> c.isRepo
    ensures Walk(true, t) == Walk(false, t)
  {
    if Stops(true, t.site) {
      assert t.site in Walk(true, t);
    } else {
      forall k | 0 <= k < |t.children|
        ensures Walk(true, t.children[k]) == Walk(false, t.children[k])
      {
        assert forall c :: c in Walk(true, t.children[k]) ==> c in Walk(true, t);
        WalksAgree(t.children[k]);
      }
    }
  }

  /** Every available root that lies inside a work tree has a `.git` of its own. */
  predicate RootsStandAlone(s: Scan) {
    forall k :: 0 <= k < |s.roots| && s.roots[k].site.isRepo ==> s.roots[k].site.marker.Some?
  }

  /** Where every `.git` found belongs to a repository, the discoveries agree if and only if the roots do. */
  lemma DiscoveriesAgreeIff(s: Scan)
    requires forall c :: c in Discover(true, s.roots) ==> c.isRepo
    ensures Discover(true, s.roots) == Discover(false, s.roots) <==> RootsStandAlone(s)
  {
    forall k | 0 <= k < |s.roots|
      ensures s.roots[k].site.isRepo && s.roots[k].site.marker.None? ==>
        s.roots[k].site in Discover(false, s.roots) && s.roots[k].site !in Discover(true, s.roots)
      ensures (s.roots[k].site.isRepo ==> s.roots[k].site.marker.Some?) ==>
        DiscoverRoot(true, s.roots[k]) == DiscoverRoot(false, s.roots[k])
    {
      var t := s.roots[k];
      assert forall c :: c in DiscoverRoot(true, t) ==> c in Discover(true, s.roots);
      if t.site.isRepo && t.site.marker.None? {
        assert t.site in DiscoverRoot(false, t);
        DiscoveredWithin(true, s.roots);
      } else if t.site.marker.Some? {
        assert t.site in DiscoverRoot(true, t);
      } else {
        WalksAgree(t);
      }
    }
  }

  // ---------------------------------------------------------------- the cheap scan refines the full scan

  /** An unchanged marker, or none recorded at that path, means an unchanged history. */
  predicate MarkersTruthful(prev: Listing, cs: seq<Candidate>) {
    forall e, c :: e in prev && c in cs && Vouched(e.1, c) ==> e.1.identity == c.identity
  }

  predicate Vouched(e: Entry, c: Candidate) {
    (e.path == Some(c.path) && e.marker.None?) || (e.marker.Some? && e.marker == c.marker)
  }

  predicate AllAdmissible(cs: seq<Candidate>) {
    forall c :: c in cs ==> c.isRepo && c.identity.Some? && c.readable
  }

  predicate AllRecorded(prev: Listing) {
    forall e :: e in prev ==> e.1.identity.Some?
  }

  predicate Comparable(prev: Listing, cs: seq<Candidate>) {
    MarkersTruthful(prev, cs) && AllAdmissible(cs) && AllRecorded(prev)
  }

  lemma DirectMatchesAgree(prev: Listing, cs: seq<Candidate>, c: Candidate, claimed: set<Id>)
    requires Comparable(prev, cs) && c in cs
    ensures DirectMatch(true, prev, c, claimed) == DirectMatch(false, prev, c, claimed)
  {
  }

  lemma {:induction false} FirstPassesAgree(prev: Listing, cs: seq<Candidate>, k: nat)
    requires Comparable(prev, cs) && k <= |cs|
    ensures AllIdentified(cs[..k]) && FirstPass(true, prev, cs[..k]).Ok?
    ensures FirstPass(true, prev, cs[..k]) == FirstPass(false, prev, cs[..k])
  {
    if k > 0 {
      FirstPassesAgree(prev, cs, k - 1);
      assert cs[..k][..k - 1] == cs[..k - 1] && cs[..k][k - 1] == cs[k - 1];
      DirectMatchesAgree(prev, cs, cs[k - 1], FirstPass(true, prev, cs[..k - 1]).value.claimed);
    }
  }

  lemma {:induction false} SecondPassSucceeds(prev: Listing, available: seq<Path>, cs: seq<Candidate>, first: Claims)
    requires AllAdmissible(cs)
    ensures SecondPass(prev, available, cs, first).Ok?
  {
    if cs != [] {
      SecondPassSucceeds(prev, available, cs[..|cs| - 1], first);
    }
  }

  lemma {:induction false} RecordsAreAll(prev: Listing, cs: seq<Candidate>)
    requires AllAdmissible(cs)
    ensures Records(prev, cs) == Ok(cs)
  {
    if cs != [] {
      RecordsAreAll(prev, cs[..|cs| - 1]);
      assert cs[..|cs| - 1] + [cs[|cs| - 1]] == cs;
    }
  }

  /** Given the same trees, both scans bind them to the same IDs and identities. */
  lemma BindingsAgree(prev: Listing, s: Scan, cs: seq<Candidate>)
    requires Comparable(prev, cs)
    ensures AllIdentified(cs) && Records(prev, cs) == Ok(cs)
    ensures Bound(true, prev, s, cs).Ok?
    ensures Bound(true, prev, s, cs) == Bound(false, prev, s, cs)
  {
    assert cs[..|cs|] == cs;
    FirstPassesAgree(prev, cs, |cs|);
    RecordsAreAll(prev, cs);
    SecondPassSucceeds(prev, s.Available(), cs, FirstPass(true, prev, cs).value);
  }

  /** The full scan itself needs no markers. */
  lemma {:induction false} FullFirstPassSucceeds(prev: Listing, cs: seq<Candidate>)
    requires AllIdentified(cs)
    ensures FirstPass(false, prev, cs).Ok?
  {
    if cs != [] {
      FullFirstPassSucceeds(prev, cs[..|cs| - 1]);
    }
  }

  lemma FullScanBinds(prev: Listing, s: Scan, cs: seq<Candidate>)
    requires AllAdmissible(cs)
    ensures AllIdentified(cs) && Records(prev, cs) == Ok(cs) && Bound(false, prev, s, cs).Ok?
  {
    RecordsAreAll(prev, cs);
    FullFirstPassSucceeds(prev, cs);
    SecondPassSucceeds(prev, s.Available(), cs, FirstPass(false, prev, cs).value);
  }

  predicate ConfiguredIfOffline(e: Entry, s: Scan) {
    e.path.Some? && !Under(e.path.value, s.Available()) ==> Under(e.path.value, s.configured)
  }

  lemma {:induction false} SameKept(prev: Listing, claimed: set<Id>, s: Scan)
    requires forall e :: e in prev && e.0 !in claimed ==> ConfiguredIfOffline(e.1, s)
    ensures Preserved(true, prev, claimed, s) == Preserved(false, prev, claimed, s)
    ensures Removed(true, prev, claimed, s) == Removed(false, prev, claimed, s)
  {
    if prev != [] {
      SameKept(prev[..|prev| - 1], claimed, s);
      assert prev[|prev| - 1] in prev;
    }
  }

  ghost predicate Keeps(cheap: bool, prev: Listing, claimed: set<Id>, s: Scan, r: map<Id, Entry>) {
    && (forall e :: e in prev && e.0 !in claimed && Offline(cheap, e.1, s) ==> e.0 in r && r[e.0] == e.1)
    && (forall id :: id in r ==> (id, r[id]) in prev && id !in claimed && Offline(cheap, r[id], s))
  }

  lemma KeepsOneMore(cheap: bool, rest: Listing, last: (Id, Entry), claimed: set<Id>, s: Scan, r: map<Id, Entry>)
    requires Keeps(cheap, rest, claimed, s, r) && forall f :: f in rest ==> f.0 != last.0
    ensures Keeps(cheap, rest + [last], claimed, s,
      if last.0 !in claimed && Offline(cheap, last.1, s) then r[last.0 := last.1] else r)
  {
    hide Offline;
    assert (last.0, last.1) == last;
  }

  lemma {:induction false} PreservedExactly(cheap: bool, prev: Listing, claimed: set<Id>, s: Scan)
    requires Keyed(prev)
    ensures Keeps(cheap, prev, claimed, s, Preserved(cheap, prev, claimed, s))
  {
    hide Offline, Keeps;
    if prev == [] {
      KeepsNothing(cheap, claimed, s);
    } else {
      var rest := prev[..|prev| - 1];
      var last := prev[|prev| - 1];
      PreservedExactly(cheap, rest, claimed, s);
      assert prev == rest + [last];
      assert forall f :: f in rest ==> f.0 != last.0;
      KeepsOneMore(cheap, rest, last, claimed, s, Preserved(cheap, rest, claimed, s));
    }
  }

  lemma KeepsNothing(cheap: bool, claimed: set<Id>, s: Scan)
    ensures Keeps(cheap, [], claimed, s, map[])
  {
  }

  ghost predicate Lost(cheap: bool, prev: Listing, id: Id, s: Scan) {
    exists e :: (id, e) in prev && !Offline(cheap, e, s)
  }

  lemma {:induction false} RemovedExactly(cheap: bool, prev: Listing, claimed: set<Id>, s: Scan)
    ensures forall id :: id in Removed(cheap, prev, claimed, s) <==> id !in claimed && Lost(cheap, prev, id, s)
  {
    if prev != [] {
      var rest := prev[..|prev| - 1];
      var last := prev[|prev| - 1];
      RemovedExactly(cheap, rest, claimed, s);
      assert prev == rest + [last];
      forall id
        ensures Lost(cheap, prev, id, s) <==> Lost(cheap, rest, id, s) || (id == last.0 && !Offline(cheap, last.1, s))
      {
        if id == last.0 && !Offline(cheap, last.1, s) {
          assert (id, last.1) in prev;
        }
      }
    }
  }

  // ---------------------------------------------------------------- claims

  ghost predicate Rebinds(prev: Listing, id: Id, identity: Identity) {
    exists e :: (id, e) in prev && (e.identity.None? || e.identity == Some(identity))
  }

  /** Each claimed ID is bound to one tree, and its recorded identity is respected. */
  ghost predicate ClaimsOk(prev: Listing, cs: seq<Candidate>, claims: Claims) {
    && (forall p :: p in claims.matched ==>
      && claims.matched[p].0 in claims.claimed && Rebinds(prev, claims.matched[p].0, claims.matched[p].1)
      && exists c :: c in cs && c.path == p)
    && (forall p, q :: p in claims.matched && q in claims.matched && p != q ==>
      claims.matched[p].0 != claims.matched[q].0)
    && (forall id :: id in claims.claimed ==> exists p :: p in claims.matched && claims.matched[p].0 == id)
  }

  lemma ClaimKeepsOk(prev: Listing, cs: seq<Candidate>, claims: Claims, c: Candidate, id: Id, identity: Identity)
    requires ClaimsOk(prev, cs, claims) && c in cs && c.path !in claims.matched && Rebinds(prev, id, identity)
    ensures ClaimsOk(prev, cs, Claim(claims, c.path, id, identity))
  {
    var t := Claim(claims, c.path, id, identity);
    if id !in claims.claimed {
      forall x | x in t.claimed
        ensures exists p :: p in t.matched && t.matched[p].0 == x
      {
        if x == id {
          assert t.matched[c.path].0 == x;
        } else {
          var p :| p in claims.matched && claims.matched[p].0 == x;
          assert t.matched[p].0 == x;
        }
      }
    }
  }

  lemma DirectRebinds(cheap: bool, prev: Listing, c: Candidate, claimed: set<Id>)
    requires cheap || c.identity.Some?
    ensures var d := DirectMatch(cheap, prev, c, claimed);
      d.Ok? && d.value.Some? ==> Rebinds(prev, d.value.value.0.0, d.value.value.1)
  {
    var d := DirectMatch(cheap, prev, c, claimed);
    if d.Ok? && d.value.Some? {
      var prior := d.value.value.0;
      assert prior in prev && (prior.0, prior.1) == prior;
    }
  }

  lemma {:induction false} FirstPassOk(cheap: bool, prev: Listing, cs: seq<Candidate>, k: nat)
    requires k <= |cs| && (cheap || AllIdentified(cs)) && FirstPass(cheap, prev, cs[..k]).Ok?
    requires Distinct(cs)
    ensures ClaimsOk(prev, cs[..k], FirstPass(cheap, prev, cs[..k]).value)
  {
    if k > 0 {
      var c := cs[k - 1];
      assert cs[..k][..k - 1] == cs[..k - 1] && cs[..k][k - 1] == c;
      FirstPassOk(cheap, prev, cs, k - 1);
      var claims := FirstPass(cheap, prev, cs[..k - 1]).value;
      ClaimsWiden(prev, cs[..k - 1], c, claims);
      assert cs[..k] == cs[..k - 1] + [c];
      assert c.path !in claims.matched;
      DirectRebinds(cheap, prev, c, claims.claimed);
      var d := DirectMatch(cheap, prev, c, claims.claimed);
      if d.value.Some? {
        ClaimKeepsOk(prev, cs[..k], claims, c, d.value.value.0.0, d.value.value.1);
      }
    }
  }

  lemma ClaimsWiden(prev: Listing, cs: seq<Candidate>, c: Candidate, claims: Claims)
    requires ClaimsOk(prev, cs, claims)
    ensures ClaimsOk(prev, cs + [c], claims)
  {
    forall p | p in claims.matched
      ensures exists d :: d in cs + [c] && d.path == p
    {
      var d :| d in cs && d.path == p;
      assert d in cs + [c];
    }
  }

  lemma {:induction false} SecondPassOk(
    prev: Listing, available: seq<Path>, all: seq<Candidate>, cs: seq<Candidate>, first: Claims)
    requires ClaimsOk(prev, all, first) && SecondPass(prev, available, cs, first).Ok?
    requires forall c :: c in cs ==> c in all
    ensures ClaimsOk(prev, all, SecondPass(prev, available, cs, first).value)
  {
    if cs != [] {
      var c := cs[|cs| - 1];
      SecondPassOk(prev, available, all, cs[..|cs| - 1], first);
      var claims := SecondPass(prev, available, cs[..|cs| - 1], first).value;
      assert c in cs;
      if Joins(claims, c) {
        var ids := Movable(prev, c.identity.value, claims.claimed, available);
        if |ids| == 1 {
          assert ids[0] in ids;
          ClaimKeepsOk(prev, all, claims, c, ids[0], c.identity.value);
        }
      }
    }
  }

  lemma BoundOk(cheap: bool, prev: Listing, s: Scan, cs: seq<Candidate>)
    requires (cheap || AllIdentified(cs)) && Bound(cheap, prev, s, cs).Ok?
    requires Distinct(cs)
    ensures ClaimsOk(prev, cs, Bound(cheap, prev, s, cs).value)
  {
    assert cs[..|cs|] == cs;
    FirstPassOk(cheap, prev, cs, |cs|);
    SecondPassOk(prev, s.Available(), cs, cs, FirstPass(cheap, prev, cs).value);
  }

  // ---------------------------------------------------------------- entries

  lemma {:induction false} MatchedExactly(cs: seq<Candidate>, claims: Claims)
    requires forall p, q :: p in claims.matched && q in claims.matched && p != q ==>
      claims.matched[p].0 != claims.matched[q].0
    ensures forall c :: c in cs && c.path in claims.matched ==> claims.matched[c.path].0 in Matched(cs, claims)
    ensures forall id :: id in Matched(cs, claims) ==> WrittenFor(cs, claims, id, Matched(cs, claims)[id])
  {
    if cs != [] {
      var rest := cs[..|cs| - 1];
      var last := cs[|cs| - 1];
      MatchedExactly(rest, claims);
      assert cs == rest + [last];
      forall id | id in Matched(cs, claims)
        ensures WrittenFor(cs, claims, id, Matched(cs, claims)[id])
      {
        if last.path in claims.matched && claims.matched[last.path].0 == id {
          assert last in cs;
        } else {
          assert WrittenFor(rest, claims, id, Matched(rest, claims)[id]);
          var c :| c in rest && Writes(claims, c, id, Matched(rest, claims)[id]);
          assert c in cs;
        }
      }
    }
  }

  predicate Writes(claims: Claims, c: Candidate, id: Id, e: Entry) {
    c.path in claims.matched && claims.matched[c.path].0 == id && e == Record(c, claims.matched[c.path].1)
  }

  ghost predicate WrittenFor(cs: seq<Candidate>, claims: Claims, id: Id, e: Entry) {
    exists c :: c in cs && Writes(claims, c, id, e)
  }

  ghost predicate AddedFor(cs: seq<Candidate>, claims: Claims, e: Entry) {
    exists c :: c in cs && Joins(claims, c) && e == Record(c, c.identity.value)
  }

  /** Fresh entries: one per joining tree, each at its own path and under an ID nobody else holds. */
  lemma {:induction false} AddedExactly(cs: seq<Candidate>, claims: Claims, taken: set<Id>)
    requires Distinct(cs)
    ensures AllAddedFor(cs, claims, Added(cs, claims, taken)) && OwnPaths(Added(cs, claims, taken))
  {
    if cs != [] {
      var rest := cs[..|cs| - 1];
      var c := cs[|cs| - 1];
      AddedExactly(rest, claims, taken);
      var q := Added(rest, claims, taken);
      assert cs == rest + [c];
      AddedForMore(rest, c, claims, q);
      if Joins(claims, c) {
        var id := FreshId(c, taken + q.Keys);
        assert Added(cs, claims, taken) == q[id := Record(c, c.identity.value)];
        hide Added, FreshId;
        AddOne(rest, c, claims, q, id);
      } else {
        assert Added(cs, claims, taken) == q;
      }
    }
  }

  ghost predicate AllAddedFor(cs: seq<Candidate>, claims: Claims, r: map<Id, Entry>) {
    forall id :: id in r ==> AddedFor(cs, claims, r[id])
  }

  lemma AddedForMore(rest: seq<Candidate>, c: Candidate, claims: Claims, r: map<Id, Entry>)
    requires AllAddedFor(rest, claims, r)
    ensures AllAddedFor(rest + [c], claims, r)
  {
    forall id | id in r
      ensures AddedFor(rest + [c], claims, r[id])
    {
      assert AddedFor(rest, claims, r[id]);
      var d :| d in rest && Joins(claims, d) && r[id] == Record(d, d.identity.value);
      assert d in rest + [c];
    }
  }

  lemma AddOne(rest: seq<Candidate>, c: Candidate, claims: Claims, q: map<Id, Entry>, id: Id)
    requires AllAddedFor(rest, claims, q) && AllAddedFor(rest + [c], claims, q) && OwnPaths(q) && Joins(claims, c)
    requires forall d :: d in rest ==> d.path != c.path
    ensures AllAddedFor(rest + [c], claims, q[id := Record(c, c.identity.value)])
    ensures OwnPaths(q[id := Record(c, c.identity.value)])
  {
    assert c in rest + [c];
    forall x | x in q
      ensures q[x].path != Some(c.path)
    {
      assert AddedFor(rest, claims, q[x]);
    }
  }

  // ---------------------------------------------------------------- the registry invariant

  /** Live IDs have a path each of their own, and no live ID is retired. */
  ghost predicate RegistryInv(r: Registry) {
    && (forall id :: id in r.repos ==> r.repos[id].path.Some? && id !in r.retired)
    && (forall a, b :: a in r.repos && b in r.repos && a != b ==> r.repos[a].path != r.repos[b].path)
  }

  /** An ID stays bound to its identity or is retired for good. */
  ghost predicate Outlives(r: Registry, t: Registry) {
    && r.retired <= t.retired
    && (forall id :: id in r.repos ==> id in t.repos || id in t.retired)
    && (forall id :: id in r.repos && id in t.repos && r.repos[id].identity.Some? ==>
      t.repos[id].identity == r.repos[id].identity)
  }

  lemma RecordsKeepOrder(prev: Listing, cs: seq<Candidate>)
    requires Records(prev, cs).Ok?
    requires Distinct(cs)
    ensures var r := Records(prev, cs).value;
      Distinct(r) && forall c :: c in r ==> c in cs
  {
    if cs != [] {
      RecordsKeepOrder(prev, cs[..|cs| - 1]);
      var rest := Records(prev, cs[..|cs| - 1]).value;
      forall i | 0 <= i < |rest|
        ensures rest[i].path != cs[|cs| - 1].path
      {
        assert rest[i] in cs[..|cs| - 1];
      }
    }
  }

  ghost predicate OwnPaths(m: map<Id, Entry>) {
    && (forall id :: id in m ==> m[id].path.Some?)
    && (forall a, b :: a in m && b in m && a != b ==> m[a].path != m[b].path)
  }

  ghost predicate Apart(m: map<Id, Entry>, n: map<Id, Entry>) {
    forall a, b :: a in m && b in n ==> m[a].path != n[b].path
  }

  lemma UnionOwnPaths(m: map<Id, Entry>, n: map<Id, Entry>)
    requires OwnPaths(m) && OwnPaths(n) && Apart(m, n)
    ensures OwnPaths(m + n)
  {
  }

  /** The three sources of entries do not overlap, in IDs or in paths. */
  lemma SourcesDisjoint(
    cheap: bool, prev: Listing, r: Registry, s: Scan, cs: seq<Candidate>, claims: Claims, taken: set<Id>)
    requires Lists(prev, r.repos) && RegistryInv(r) && ClaimsOk(prev, cs, claims)
    requires Distinct(cs)
    requires forall c :: c in cs ==> Under(c.path, s.Available())
    ensures OwnPaths(Preserved(cheap, prev, claims.claimed, s))
    ensures OwnPaths(Matched(cs, claims))
    ensures OwnPaths(Added(cs, claims, taken))
    ensures Apart(Preserved(cheap, prev, claims.claimed, s), Matched(cs, claims))
    ensures Apart(Preserved(cheap, prev, claims.claimed, s), Added(cs, claims, taken))
    ensures Apart(Matched(cs, claims), Added(cs, claims, taken))
    ensures Preserved(cheap, prev, claims.claimed, s).Keys !! Matched(cs, claims).Keys
  {
    PreservedExactly(cheap, prev, claims.claimed, s);
    MatchedExactly(cs, claims);
    AddedExactly(cs, claims, taken);
  }

  /** Where an ID of the new registry comes from. */
  ghost predicate Sourced(
    cheap: bool, prev: Listing, retired: set<Id>, s: Scan, cs: seq<Candidate>, claims: Claims, repos: map<Id, Entry>)
  {
    var kept := Preserved(cheap, prev, claims.claimed, s);
    var matched := Matched(cs, claims);
    var gone := retired + Removed(cheap, prev, claims.claimed, s);
    forall id :: id in repos ==>
      || (id in kept && repos[id] == kept[id] && id !in matched)
      || (id in matched && repos[id] == matched[id])
      || (id !in kept && id !in matched && id !in gone)
  }

  lemma PathsStayUnique(cheap: bool, prev: Listing, r: Registry, s: Scan, cs: seq<Candidate>, claims: Claims)
    requires Lists(prev, r.repos) && RegistryInv(r) && ClaimsOk(prev, cs, claims)
    requires Distinct(cs)
    requires forall c :: c in cs ==> Under(c.path, s.Available())
    ensures RegistryInv(Assemble(cheap, prev, r.retired, s, cs, claims))
  {
    var kept := Preserved(cheap, prev, claims.claimed, s);
    var matched := Matched(cs, claims);
    var gone := r.retired + Removed(cheap, prev, claims.claimed, s);
    var taken := kept.Keys + matched.Keys + gone + s.reserved;
    SourcesDisjoint(cheap, prev, r, s, cs, claims, taken);
    hide Preserved, Matched, Removed, Added, ClaimsOk, Lists;
    UnionOwnPaths(kept, matched);
    UnionOwnPaths(kept + matched, Added(cs, claims, taken));
  }

  lemma IdsHaveSources(cheap: bool, prev: Listing, r: Registry, s: Scan, cs: seq<Candidate>, claims: Claims)
    requires Lists(prev, r.repos) && RegistryInv(r) && ClaimsOk(prev, cs, claims)
    ensures Sourced(cheap, prev, r.retired, s, cs, claims, Assemble(cheap, prev, r.retired, s, cs, claims).repos)
  {
    PreservedExactly(cheap, prev, claims.claimed, s);
    MatchedWereLive(prev, r, cs, claims);
  }

  lemma IdsOutlive(cheap: bool, prev: Listing, r: Registry, s: Scan, cs: seq<Candidate>, claims: Claims)
    requires Lists(prev, r.repos) && RegistryInv(r) && ClaimsOk(prev, cs, claims)
    requires Sourced(cheap, prev, r.retired, s, cs, claims, Assemble(cheap, prev, r.retired, s, cs, claims).repos)
    ensures Outlives(r, Assemble(cheap, prev, r.retired, s, cs, claims))
  {
    var t := Assemble(cheap, prev, r.retired, s, cs, claims);
    PreservedExactly(cheap, prev, claims.claimed, s);
    RemovedExactly(cheap, prev, claims.claimed, s);
    MatchedExactly(cs, claims);
    MatchedWereLive(prev, r, cs, claims);
    forall id | id in r.repos
      ensures id in t.repos || id in t.retired
      ensures id in t.repos && r.repos[id].identity.Some? ==> t.repos[id].identity == r.repos[id].identity
    {
      assert (id, r.repos[id]) in prev;
      if id in claims.claimed {
        var p :| p in claims.matched && claims.matched[p].0 == id;
        var c :| c in cs && c.path == p;
        assert id in Matched(cs, claims);
      } else if !Offline(cheap, r.repos[id], s) {
        assert Lost(cheap, prev, id, s);
      }
    }
  }

  lemma MatchedWereLive(prev: Listing, r: Registry, cs: seq<Candidate>, claims: Claims)
    requires Lists(prev, r.repos) && ClaimsOk(prev, cs, claims)
    ensures var m := Matched(cs, claims);
      forall id :: id in m ==>
        && id in r.repos && id in claims.claimed
        && (r.repos[id].identity.Some? ==> m[id].identity == r.repos[id].identity)
  {
    MatchedExactly(cs, claims);
    var m := Matched(cs, claims);
    forall id | id in m
      ensures id in r.repos && id in claims.claimed
      ensures r.repos[id].identity.Some? ==> m[id].identity == r.repos[id].identity
    {
      assert WrittenFor(cs, claims, id, m[id]);
      var c :| c in cs && Writes(claims, c, id, m[id]);
      assert Rebinds(prev, id, claims.matched[c.path].1);
      var e :| (id, e) in prev && (e.identity.None? || e.identity == Some(claims.matched[c.path].1));
    }
  }

  /** One scan of either kind, whatever the candidates look like. */
  lemma ScanKeepsInv(cheap: bool, prev: Listing, r: Registry, s: Scan)
    requires Lists(prev, r.repos) && RegistryInv(r) && Discovered(s)
    requires Reconcile(cheap, prev, r.retired, s).Ok?
    ensures RegistryInv(Reconcile(cheap, prev, r.retired, s).value)
    ensures Outlives(r, Reconcile(cheap, prev, r.retired, s).value)
  {
    var cs := ScanRecords(cheap, prev, s).value;
    CandidatesAreTrees(cheap, s);
    if !cheap {
      RecordsKeepOrder(prev, Candidates(false, s));
    }
    BoundOk(cheap, prev, s, cs);
    var claims := Bound(cheap, prev, s, cs).value;
    PathsStayUnique(cheap, prev, r, s, cs, claims);
    IdsHaveSources(cheap, prev, r, s, cs, claims);
    IdsOutlive(cheap, prev, r, s, cs, claims);
  }

  // ---------------------------------------------------------------- sequences of scans

  /** A scan of either kind over the saved registry; order is how its dictionary was read back. */
  datatype Tick = Tick(cheap: bool, order: Listing, scan: Scan)

  ghost predicate Runnable(r: Registry, t: Tick) {
    Lists(t.order, r.repos) && Discovered(t.scan)
  }

  /** A scan that raises leaves the saved registry. */
  ghost function After(r: Registry, t: Tick): Registry {
    if !Runnable(r, t) then r
    else
      match Reconcile(t.cheap, t.order, r.retired, t.scan)
      case Err(_) => r
      case Ok(n) => n
  }

  ghost function AfterAll(r: Registry, ticks: seq<Tick>): Registry
    decreases |ticks|
  {
    if ticks == [] then r else AfterAll(After(r, ticks[0]), ticks[1..])
  }

  /**
  Over any sequence of scans of either kind: paths stay unique, an ID once live is live or retired, a
  retired ID is never live again, and a recorded identity never changes.
  */
  lemma {:induction false} IdsAreNeverReused(r: Registry, ticks: seq<Tick>)
    requires RegistryInv(r)
    ensures RegistryInv(AfterAll(r, ticks))
    ensures Outlives(r, AfterAll(r, ticks))
    decreases |ticks|
  {
    if ticks != [] {
      var t := ticks[0];
      var u := After(r, t);
      if Runnable(r, t) && Reconcile(t.cheap, t.order, r.retired, t.scan).Ok? {
        ScanKeepsInv(t.cheap, t.order, r, t.scan);
      }
      IdsAreNeverReused(u, ticks[1..]);
      OutlivesTransitive(r, u, AfterAll(r, ticks));
    }
  }

  lemma OutlivesTransitive(a: Registry, b: Registry, c: Registry)
    requires RegistryInv(a) && RegistryInv(b) && RegistryInv(c) && Outlives(a, b) && Outlives(b, c)
    ensures Outlives(a, c)
  {
  }

  // ---------------------------------------------------------------- cheap equals full

  /** A tree elsewhere carries the entry's marker, and no entry of its own history stands at its path. */
  predicate TakenOver(prev: Listing, cs: seq<Candidate>, e: (Id, Entry)) {
    exists c :: c in cs && TakesOver(prev, c, e)
  }

  predicate TakesOver(prev: Listing, c: Candidate, e: (Id, Entry)) {
    && c.marker.Some? && ByMarker(prev, c.marker.value) == Some(e)
    && (ByPath(prev, c.path).None? || ByPath(prev, c.path).value.1.identity != c.identity)
  }

  predicate Stray(e: Entry, s: Scan) {
    !ConfiguredIfOffline(e, s)
  }

  lemma TakenOverMore(prev: Listing, cs: seq<Candidate>, c: Candidate, e: (Id, Entry))
    ensures TakenOver(prev, cs + [c], e) <==> TakenOver(prev, cs, e) || TakesOver(prev, c, e)
  {
    hide TakesOver;
    if TakesOver(prev, c, e) {
      assert c in cs + [c];
    }
    if TakenOver(prev, cs, e) {
      var d :| d in cs && TakesOver(prev, d, e);
      assert d in cs + [c];
    }
  }

  /** The direct rules reach an entry outside the available roots by its marker alone. */
  lemma DirectTakesStray(prev: Listing, s: Scan, cs: seq<Candidate>, c: Candidate, claimed: set<Id>, e: (Id, Entry))
    requires Keyed(prev) && Comparable(prev, cs) && c in cs && e in prev && Stray(e.1, s)
    requires Under(c.path, s.Available()) && e.0 !in claimed
    ensures var d := DirectMatch(true, prev, c, claimed);
      d.Ok? && (d.value.Some? && d.value.value.0.0 == e.0 <==> TakesOver(prev, c, e))
  {
    hide Under;
    var d := DirectMatch(true, prev, c, claimed);
    if d.value.Some? && d.value.value.0.0 == e.0 {
      assert d.value.value.0 in prev;
      assert d.value.value.0 == e;
    }
  }

  lemma {:induction false} FirstPassTakesStrays(prev: Listing, s: Scan, cs: seq<Candidate>, k: nat, e: (Id, Entry))
    requires Keyed(prev) && Comparable(prev, cs) && k <= |cs| && e in prev && Stray(e.1, s)
    requires forall c :: c in cs ==> Under(c.path, s.Available())
    ensures FirstPass(true, prev, cs[..k]).Ok?
    ensures e.0 in FirstPass(true, prev, cs[..k]).value.claimed <==> TakenOver(prev, cs[..k], e)
  {
    FirstPassesAgree(prev, cs, k);
    if k > 0 {
      var c := cs[k - 1];
      assert cs[..k][..k - 1] == cs[..k - 1] && cs[..k] == cs[..k - 1] + [c];
      FirstPassTakesStrays(prev, s, cs, k - 1, e);
      var claimed := FirstPass(true, prev, cs[..k - 1]).value.claimed;
      TakenOverMore(prev, cs[..k - 1], c, e);
      if e.0 !in claimed {
        DirectTakesStray(prev, s, cs, c, claimed, e);
      }
    }
  }

  lemma MovableIsNotStray(prev: Listing, s: Scan, identity: Identity, claimed: set<Id>, e: (Id, Entry))
    requires Keyed(prev) && e in prev && Stray(e.1, s)
    ensures e.0 !in Movable(prev, identity, claimed, s.Available())
  {
    hide Under, Movable;
    forall id | id in Movable(prev, identity, claimed, s.Available())
      ensures id != e.0
    {
      var f :| (id, f) in prev && f.path.Some? && Under(f.path.value, s.Available());
    }
  }

  lemma {:induction false} SecondPassLeavesStrays(
    prev: Listing, s: Scan, cs: seq<Candidate>, first: Claims, e: (Id, Entry))
    requires Keyed(prev) && e in prev && Stray(e.1, s) && SecondPass(prev, s.Available(), cs, first).Ok?
    ensures e.0 in SecondPass(prev, s.Available(), cs, first).value.claimed <==> e.0 in first.claimed
  {
    if cs != [] {
      var c := cs[|cs| - 1];
      SecondPassLeavesStrays(prev, s, cs[..|cs| - 1], first, e);
      var claims := SecondPass(prev, s.Available(), cs[..|cs| - 1], first).value;
      if Joins(claims, c) {
        MovableIsNotStray(prev, s, c.identity.value, claims.claimed, e);
      }
    }
  }

  lemma StraysClaimedIffTaken(prev: Listing, s: Scan, cs: seq<Candidate>, e: (Id, Entry))
    requires Keyed(prev) && Comparable(prev, cs) && e in prev && Stray(e.1, s)
    requires forall c :: c in cs ==> Under(c.path, s.Available())
    ensures Bound(true, prev, s, cs).Ok?
    ensures e.0 in Bound(true, prev, s, cs).value.claimed <==> TakenOver(prev, cs, e)
  {
    hide Comparable, Stray, TakenOver, FirstPass, SecondPass, Under, Keyed, AllIdentified, Records;
    BindingsAgree(prev, s, cs);
    assert cs[..|cs|] == cs;
    FirstPassTakesStrays(prev, s, cs, |cs|, e);
    SecondPassLeavesStrays(prev, s, cs, FirstPass(true, prev, cs).value, e);
  }

  ghost predicate HasPath(repos: map<Id, Entry>, path: Path) {
    exists id :: id in repos && repos[id].path == Some(path)
  }

  lemma {:induction false} AddedCovers(cs: seq<Candidate>, claims: Claims, taken: set<Id>, c: Candidate)
    requires c in cs && Joins(claims, c)
    ensures HasPath(Added(cs, claims, taken), c.path)
  {
    var rest := cs[..|cs| - 1];
    var last := cs[|cs| - 1];
    var q := Added(rest, claims, taken);
    if c == last {
      var id := FreshId(c, taken + q.Keys);
      assert id in Added(cs, claims, taken) && Added(cs, claims, taken)[id].path == Some(c.path);
    } else {
      assert cs == rest + [last];
      AddedCovers(rest, claims, taken, c);
      var id :| id in q && q[id].path == Some(c.path);
      assert id in Added(cs, claims, taken) && Added(cs, claims, taken)[id] == q[id];
    }
  }

  /** Every admissible tree of a scan is live at its path afterwards. */
  lemma TreesAreLive(
    cheap: bool, prev: Listing, r: Registry, s: Scan, cs: seq<Candidate>, claims: Claims, c: Candidate)
    requires ClaimsOk(prev, cs, claims) && AllAdmissible(cs) && c in cs
    ensures HasPath(Assemble(cheap, prev, r.retired, s, cs, claims).repos, c.path)
  {
    var kept := Preserved(cheap, prev, claims.claimed, s);
    var matched := Matched(cs, claims);
    var gone := r.retired + Removed(cheap, prev, claims.claimed, s);
    var taken := kept.Keys + matched.Keys + gone + s.reserved;
    var repos := Assemble(cheap, prev, r.retired, s, cs, claims).repos;
    hide Preserved, Removed, Matched, Added;
    if c.path in claims.matched {
      var id := claims.matched[c.path].0;
      MatchedExactly(cs, claims);
      assert id in matched && WrittenFor(cs, claims, id, matched[id]);
      assert id in repos && repos[id] == matched[id];
    } else {
      AddedCovers(cs, claims, taken, c);
      var id :| id in Added(cs, claims, taken) && Added(cs, claims, taken)[id].path == Some(c.path);
      assert id in repos && repos[id] == Added(cs, claims, taken)[id];
    }
  }

  /** A live path under an available root is one of the scan's trees. */
  lemma LiveAreTrees(
    cheap: bool, prev: Listing, r: Registry, s: Scan, cs: seq<Candidate>, claims: Claims, path: Path)
    requires Keyed(prev) && ClaimsOk(prev, cs, claims) && Distinct(cs) && Under(path, s.Available())
    requires HasPath(Assemble(cheap, prev, r.retired, s, cs, claims).repos, path)
    ensures exists c :: c in cs && c.path == path
  {
    var kept := Preserved(cheap, prev, claims.claimed, s);
    var matched := Matched(cs, claims);
    var taken := kept.Keys + matched.Keys + (r.retired + Removed(cheap, prev, claims.claimed, s)) + s.reserved;
    var added := Added(cs, claims, taken);
    var repos := Assemble(cheap, prev, r.retired, s, cs, claims).repos;
    PreservedExactly(cheap, prev, claims.claimed, s);
    MatchedExactly(cs, claims);
    AddedExactly(cs, claims, taken);
    assert forall x :: x in kept ==> kept[x].path != Some(path);
    hide Preserved, Removed, Matched, Added, Under;
    var id :| id in repos && repos[id].path == Some(path);
    if id in added {
      assert AddedFor(cs, claims, added[id]);
    } else if id in matched {
      assert WrittenFor(cs, claims, id, matched[id]);
    }
  }

  /** The full scan publishes a root inside a foreign work tree; the cheap scan does not. */
  lemma RootInWorkTreeDiffers(prev: Listing, r: Registry, s: Scan, k: nat)
    requires Lists(prev, r.repos) && Discovered(s) && k < |s.roots|
    requires s.roots[k].site.isRepo && s.roots[k].site.marker.None?
    requires Reconcile(true, prev, r.retired, s).Ok? && Reconcile(false, prev, r.retired, s).Ok?
    requires AllAdmissible(Candidates(false, s))
    ensures HasPath(Reconcile(false, prev, r.retired, s).value.repos, s.roots[k].site.path)
    ensures !HasPath(Reconcile(true, prev, r.retired, s).value.repos, s.roots[k].site.path)
  {
    var c := s.roots[k].site;
    var cheaply, fully := Candidates(true, s), Candidates(false, s);
    CandidatesAreTrees(true, s);
    CandidatesAreTrees(false, s);
    assert c in DiscoverRoot(false, s.roots[k]);
    DiscoveredWithin(false, s.roots);
    FullScanBinds(prev, s, fully);
    BoundOk(false, prev, s, fully);
    TreesAreLive(false, prev, r, s, fully, Bound(false, prev, s, fully).value, c);
    BoundOk(true, prev, s, cheaply);
    NoCheapTreeThere(s, c);
    hide Bound, Assemble;
    if HasPath(Reconcile(true, prev, r.retired, s).value.repos, c.path) {
      LiveAreTrees(true, prev, r, s, cheaply, Bound(true, prev, s, cheaply).value, c.path);
    }
  }

  lemma NoCheapTreeThere(s: Scan, c: Candidate)
    requires Discovered(s) && c in AllSites(s.roots) && c.marker.None?
    ensures forall d :: d in Candidates(true, s) ==> d.path != c.path
  {
    CandidatesAreTrees(true, s);
    DiscoveredWithin(true, s.roots);
    forall d | d in Candidates(true, s)
      ensures d.path != c.path
    {
      assert d in AllSites(s.roots);
    }
  }

  /**
  Unchanged markers mean unchanged histories, every old entry has an identity, and every tree that either
  discovery finds is a repository with a commit and a readable state.  Then both scans succeed, and they
  return the same registry, fresh IDs included, if and only if every available root inside a work tree
  has a `.git` of its own, and every old entry outside all configured roots is taken over by its marker.
  */
  lemma CheapEqualsFullIff(prev: Listing, r: Registry, s: Scan)
    requires Lists(prev, r.repos) && RegistryInv(r) && Discovered(s)
    requires Comparable(prev, Candidates(true, s)) && AllAdmissible(Candidates(false, s))
    ensures Reconcile(true, prev, r.retired, s).Ok? && Reconcile(false, prev, r.retired, s).Ok?
    ensures Reconcile(true, prev, r.retired, s) == Reconcile(false, prev, r.retired, s) <==>
      && RootsStandAlone(s)
      && forall e :: e in prev && Stray(e.1, s) ==> TakenOver(prev, Candidates(true, s), e)
  {
    var cs := Candidates(true, s);
    CandidatesAreTrees(true, s);
    BindingsAgree(prev, s, cs);
    FullScanBinds(prev, s, Candidates(false, s));
    DiscoveriesAgreeIff(s);
    if RootsStandAlone(s) {
      SameTreesEqualIff(prev, r, s);
    } else {
      var k :| 0 <= k < |s.roots| && s.roots[k].site.isRepo && s.roots[k].site.marker.None?;
      RootInWorkTreeDiffers(prev, r, s, k);
    }
  }

  lemma SameTreesReconcile(prev: Listing, r: Registry, s: Scan)
    requires Candidates(true, s) == Candidates(false, s) && Comparable(prev, Candidates(true, s))
    ensures var cs := Candidates(true, s);
      && Bound(true, prev, s, cs).Ok?
      && var claims := Bound(true, prev, s, cs).value;
        && Reconcile(true, prev, r.retired, s) == Ok(Assemble(true, prev, r.retired, s, cs, claims))
        && Reconcile(false, prev, r.retired, s) == Ok(Assemble(false, prev, r.retired, s, cs, claims))
  {
    BindingsAgree(prev, s, Candidates(true, s));
    hide Bound, Assemble, Records, MarkersTruthful;
  }

  lemma SameKeptSameRegistry(prev: Listing, r: Registry, s: Scan, cs: seq<Candidate>, claims: Claims)
    requires forall e :: e in prev && e.0 !in claims.claimed ==> ConfiguredIfOffline(e.1, s)
    ensures Assemble(true, prev, r.retired, s, cs, claims) == Assemble(false, prev, r.retired, s, cs, claims)
  {
    SameKept(prev, claims.claimed, s);
    hide Preserved, Removed, Matched, Added;
  }

  lemma SameTreesEqualIff(prev: Listing, r: Registry, s: Scan)
    requires Lists(prev, r.repos) && RegistryInv(r) && Discovered(s) && Candidates(true, s) == Candidates(false, s)
    requires Comparable(prev, Candidates(true, s))
    ensures Reconcile(true, prev, r.retired, s) == Reconcile(false, prev, r.retired, s) <==>
      forall e :: e in prev && Stray(e.1, s) ==> TakenOver(prev, Candidates(true, s), e)
  {
    assert Keyed(prev);
    hide Bound, TakenOver, ClaimsOk, Reconcile, Assemble, RegistryInv, Under, Discovered, Candidates, Stray, Keyed;
    SameTreesReconcile(prev, r, s);
    CandidatesAreTrees(true, s);
    var cs := Candidates(true, s);
    BoundOk(true, prev, s, cs);
    var claims := Bound(true, prev, s, cs).value;
    forall e | e in prev && Stray(e.1, s)
      ensures e.0 in claims.claimed <==> TakenOver(prev, cs, e)
    {
      StraysClaimedIffTaken(prev, s, cs, e);
    }
    SameBindingEqualIff(prev, r, s, cs, claims);
  }

  lemma SameBindingEqualIff(prev: Listing, r: Registry, s: Scan, cs: seq<Candidate>, claims: Claims)
    requires Lists(prev, r.repos) && RegistryInv(r) && ClaimsOk(prev, cs, claims)
    requires forall e :: e in prev && Stray(e.1, s) ==> (e.0 in claims.claimed <==> TakenOver(prev, cs, e))
    ensures Assemble(true, prev, r.retired, s, cs, claims) == Assemble(false, prev, r.retired, s, cs, claims) <==>
      forall e :: e in prev && Stray(e.1, s) ==> TakenOver(prev, cs, e)
  {
    hide TakenOver, ClaimsOk, Assemble, RegistryInv, Under;
    if forall e :: e in prev && Stray(e.1, s) ==> TakenOver(prev, cs, e) {
      SameKeptSameRegistry(prev, r, s, cs, claims);
    } else {
      var e :| e in prev && Stray(e.1, s) && !TakenOver(prev, cs, e);
      assert (e.0, e.1) == e;
      ForgottenRootDiffers(prev, r, s, cs, claims, e);
      LiveIsNotRetired(prev, r, s, cs, claims, e.0);
    }
  }

  lemma LiveIsNotRetired(prev: Listing, r: Registry, s: Scan, cs: seq<Candidate>, claims: Claims, id: Id)
    requires id in Assemble(false, prev, r.retired, s, cs, claims).retired
    ensures id !in Assemble(false, prev, r.retired, s, cs, claims).repos
  {
    hide Preserved, Removed, Matched, Added;
  }

  /** The cheap scan keeps such an entry live; the full scan retires it. */
  lemma ForgottenRootDiffers(
    prev: Listing, r: Registry, s: Scan, cs: seq<Candidate>, claims: Claims, e: (Id, Entry))
    requires Lists(prev, r.repos) && RegistryInv(r) && ClaimsOk(prev, cs, claims)
    requires (e.0, e.1) in prev && e.0 !in claims.claimed && Stray(e.1, s)
    ensures e.0 in Assemble(true, prev, r.retired, s, cs, claims).repos
    ensures e.0 in Assemble(false, prev, r.retired, s, cs, claims).retired
  {
    PreservedExactly(true, prev, claims.claimed, s);
    PreservedExactly(false, prev, claims.claimed, s);
    RemovedExactly(false, prev, claims.claimed, s);
    MatchedWereLive(prev, r, cs, claims);
    assert Offline(true, e.1, s) && !Offline(false, e.1, s);
    assert Lost(false, prev, e.0, s);
  }
  // ---------------------------------------------------------------- a root inside a foreign work tree

  /** A configured root below a work tree, without a `.git` of its own, and a repository below that. */
  const SUB := Candidate(["w", "sub"], "sub", "sub", "f0", None, true, Some(0), true)
  const NESTED := Candidate(["w", "sub", "x"], "x", "x", "f1", Some(1), true, Some(1), true)

  lemma SortsOne(cs: seq<Candidate>, c: Candidate)
    requires SortOf(cs, {c})
    ensures cs == [c]
  {
    assert c in cs;
    var i := if |cs| > 1 then 1 else 0;
    assert cs[i] in cs && cs[0] in cs;
  }

  lemma FreshRegistry(cheap: bool, s: Scan, c: Candidate)
    requires Candidates(cheap, s) == [c] && c.isRepo && c.identity.Some? && c.readable && c.slug !in s.reserved
    ensures Reconcile(cheap, [], {}, s) == Ok(Registry(map[c.slug := Record(c, c.identity.value)], {}))
  {
    var none: seq<Candidate> := [];
    var cs := [c];
    assert cs[..|cs| - 1] == none && none + [c] == cs;
    EmptyScan(cheap, s);
    assert Records([], cs) == Ok(cs) && FirstPass(cheap, [], cs) == Ok(NOTHING);
    assert Movable([], c.identity.value, {}, s.Available()) == [];
    assert SecondPass([], s.Available(), cs, NOTHING) == Ok(NOTHING);
    assert Matched(cs, NOTHING) == map[];
    var taken := Preserved(cheap, [], {}, s).Keys + Matched(cs, NOTHING).Keys + ({} + Removed(cheap, [], {}, s)) + s.reserved;
    assert taken == s.reserved && taken + Added(none, NOTHING, taken).Keys == s.reserved;
    assert FreshId(c, s.reserved) == c.slug;
    assert Added(cs, NOTHING, taken) == map[c.slug := Record(c, c.identity.value)];
    assert Bound(cheap, [], s, cs) == Ok(NOTHING) && !Unreadable(cheap, cs, NOTHING);
    var repos := Assemble(cheap, [], {}, s, cs, NOTHING).repos;
    assert repos == map[c.slug := Record(c, c.identity.value)];
    assert Assemble(cheap, [], {}, s, cs, NOTHING).retired == {};
    assert ScanRecords(cheap, [], s) == Ok(cs);
  }

  /** With nothing known before, no pass over no trees does anything. */
  lemma EmptyScan(cheap: bool, s: Scan)
    ensures var none: seq<Candidate> := [];
      && Records([], none) == Ok(none) && FirstPass(cheap, [], none) == Ok(NOTHING)
      && SecondPass([], s.Available(), none, NOTHING) == Ok(NOTHING)
      && Matched(none, NOTHING) == map[] && (forall taken :: Added(none, NOTHING, taken) == map[])
      && Preserved(cheap, [], {}, s) == map[] && Removed(cheap, [], {}, s) == {}
  {
  }

  lemma EmptyRegistry(cheap: bool, s: Scan)
    requires Candidates(cheap, s) == []
    ensures Reconcile(cheap, [], {}, s) == Ok(Registry(map[], {}))
  {
    EmptyScan(cheap, s);
    var none: seq<Candidate> := [];
    assert Bound(cheap, [], s, none) == Ok(NOTHING);
    assert Assemble(cheap, [], {}, s, none, NOTHING) == Registry(map[], {});
  }

  /** From the same empty registry the full scan publishes the root, the cheap scan what is below it. */
  lemma RootInWorkTreeExample(s: Scan, nested: bool)
    requires s.configured == [SUB.path] && s.reserved == {}
    requires s.roots == [Tree(SUB, if nested then [Tree(NESTED, [])] else [])]
    requires forall all: set<Candidate> :: SortOf(s.order(all), all)
    ensures Discovered(s)
    ensures Reconcile(false, [], {}, s) == Ok(Registry(map["sub" := Record(SUB, 0)], {}))
    ensures Reconcile(true, [], {}, s) == Ok(Registry(if nested then map["x" := Record(NESTED, 1)] else map[], {}))
  {
    ExampleIsDiscovered(s, nested);
    ExampleDiscoveries(s.roots, nested);
    SortsOne(Candidates(false, s), SUB);
    FreshRegistry(false, s, SUB);
    if nested {
      SortsOne(Candidates(true, s), NESTED);
      FreshRegistry(true, s, NESTED);
    } else {
      SortsNone(Candidates(true, s), Discover(true, s.roots));
      EmptyRegistry(true, s);
    }
  }

  lemma FirstIsListed(cs: seq<Candidate>, all: set<Candidate>)
    requires SortOf(cs, all) && cs != []
    ensures cs[0] in all
  {
    assert cs[0] in cs;
  }

  lemma SortsNone(cs: seq<Candidate>, all: set<Candidate>)
    requires SortOf(cs, all) && |all| == 0
    ensures cs == []
  {
    if cs != [] {
      FirstIsListed(cs, all);
    }
  }

  lemma ExampleDiscoveries(roots: seq<Tree>, nested: bool)
    requires roots == [Tree(SUB, if nested then [Tree(NESTED, [])] else [])]
    ensures Discover(false, roots) == {SUB}
    ensures Discover(true, roots) == if nested then {NESTED} else {}
  {
    assert DiscoverRoot(false, roots[0]) == {SUB};
    assert Walk(true, Tree(NESTED, [])) == {NESTED};
    assert DiscoverRoot(true, roots[0]) == if nested then {NESTED} else {};
  }

  lemma ExampleIsDiscovered(s: Scan, nested: bool)
    requires s.roots == [Tree(SUB, if nested then [Tree(NESTED, [])] else [])]
    requires forall all: set<Candidate> :: SortOf(s.order(all), all)
    ensures Discovered(s)
  {
    assert Sites(Tree(NESTED, [])) == {NESTED};
    assert Sites(s.roots[0]) == if nested then {SUB, NESTED} else {SUB};
    assert AllSites(s.roots) == if nested then {SUB, NESTED} else {SUB};
    assert SUB.path <= NESTED.path;
  }
}
