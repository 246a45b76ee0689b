/**
Both scans as loops over dictionaries, proved to compute the functions of `RegistryRules`.
*/
module RegistryBuilder {
  import opened Prelude
  import opened RegistryRules
  import opened RegistryScans

  // ---------------------------------------------------------------- discovery

  ghost predicate Below(cheap: bool, ts: seq<Tree>, k: nat, c: Candidate)
    requires k <= |ts|
  {
    exists j :: 0 <= j < k && c in Walk(cheap, ts[j])
  }

  ghost predicate BelowRoots(cheap: bool, ts: seq<Tree>, k: nat, c: Candidate)
    requires k <= |ts|
  {
    exists j :: 0 <= j < k && c in DiscoverRoot(cheap, ts[j])
  }

  /** The directory walk below a root: it does not enter a tree it has reported. */
  method WalkTree(cheap: bool, t: Tree) returns (found: set<Candidate>)
    ensures found == Walk(cheap, t)
  {
    if Stops(cheap, t.site) {
      return {t.site};
    }
    found := {};
    for k := 0 to |t.children|
      invariant forall c :: c in found <==> Below(cheap, t.children, k, c)
    {
      var below := WalkTree(cheap, t.children[k]);
      OneMoreBelow(cheap, t.children, k);
      found := found + below;
    }
    assert forall c :: c in Walk(cheap, t) <==> Below(cheap, t.children, |t.children|, c);
  }

  lemma OneMoreBelow(cheap: bool, ts: seq<Tree>, k: nat)
    requires k < |ts|
    ensures forall c :: Below(cheap, ts, k + 1, c) <==> Below(cheap, ts, k, c) || c in Walk(cheap, ts[k])
    ensures forall c :: BelowRoots(cheap, ts, k + 1, c) <==> BelowRoots(cheap, ts, k, c) || c in DiscoverRoot(cheap, ts[k])
  {
    hide Walk, DiscoverRoot;
  }

  /** `discover_repo_markers` (cheap) and `discover_repos`, up to the sort. */
  method DiscoverTrees(cheap: bool, roots: seq<Tree>) returns (found: set<Candidate>)
    ensures found == Discover(cheap, roots)
  {
    hide Walk;
    found := {};
    for k := 0 to |roots|
      invariant forall c :: c in found <==> BelowRoots(cheap, roots, k, c)
    {
      OneMoreBelow(cheap, roots, k);
      if (if cheap then roots[k].site.marker.Some? else roots[k].site.isRepo) {
        found := found + {roots[k].site};
      } else {
        var below := WalkTree(cheap, roots[k]);
        found := found + below;
      }
    }
  }

  // ---------------------------------------------------------------- the dictionaries of previous entries

  function Get<K(==), V>(m: map<K, V>, k: K): Option<V> {
    if k in m then Some(m[k]) else None
  }

  function GetAll(m: map<Identity, Listing>, k: Identity): Listing {
    if k in m then m[k] else []
  }

  /** The three lookups agree with the previous listing. */
  ghost predicate Indexes(
    prev: Listing, byPath: map<Path, (Id, Entry)>, byMarker: map<Marker, (Id, Entry)>, byIdentity: map<Identity, Listing>)
  {
    && (forall p :: Get(byPath, p) == ByPath(prev, p))
    && (forall m: Marker :: Get(byMarker, m) == ByMarker(prev, m))
    && (forall i: Identity :: GetAll(byIdentity, i) == ByIdentity(prev, i))
  }

  method IndexPrevious(prev: Listing)
    returns (byPath: map<Path, (Id, Entry)>, byMarker: map<Marker, (Id, Entry)>, byIdentity: map<Identity, Listing>)
    ensures Indexes(prev, byPath, byMarker, byIdentity)
  {
    byPath, byMarker, byIdentity := map[], map[], map[];
    for k := 0 to |prev|
      invariant Indexes(prev[..k], byPath, byMarker, byIdentity)
    {
      var entry := prev[k].1;
      assert prev[..k + 1][..k] == prev[..k];
      if entry.path.Some? {
        byPath := byPath[entry.path.value := prev[k]];
      }
      if entry.marker.Some? && entry.marker.value !in byMarker {
        byMarker := byMarker[entry.marker.value := prev[k]];
      }
      if entry.identity.Some? {
        byIdentity := byIdentity[entry.identity.value := GetAll(byIdentity, entry.identity.value) + [prev[k]]];
      }
    }
    assert prev[..|prev|] == prev;
  }

  /** First loop of the cheap scan. */
  method CheapDirectPass(
    ghost prev: Listing, cs: seq<Candidate>, byPath: map<Path, (Id, Entry)>, byMarker: map<Marker, (Id, Entry)>)
    returns (r: Result<Claims, Failure>)
    requires forall p :: Get(byPath, p) == ByPath(prev, p)
    requires forall m: Marker :: Get(byMarker, m) == ByMarker(prev, m)
    ensures r == FirstPass(true, prev, cs)
  {
    hide ByPath, ByMarker;
    var matched: map<Path, (Id, Identity)>, claimed: set<Id> := map[], {};
    for k := 0 to |cs|
      invariant FirstPass(true, prev, cs[..k]) == Ok(Claims(matched, claimed))
    {
      var c := cs[k];
      assert cs[..k + 1][..k] == cs[..k];
      assert Get(byPath, c.path) == ByPath(prev, c.path);
      var found: Option<(Id, Entry)>, identity: Option<Identity> := None, None;
      if c.path in byPath {
        var prior := byPath[c.path];
        if prior.1.marker.None? || prior.1.marker == c.marker {
          identity := if prior.1.identity.Some? then prior.1.identity else c.identity;
          if identity.None? {
            FailureStays(true, prev, cs, k + 1);
            return Err(GitFailed);
          }
          found := Some(prior);
        } else {
          identity := c.identity;
          if identity.None? {
            FailureStays(true, prev, cs, k + 1);
            return Err(GitFailed);
          }
          if prior.1.identity.None? || prior.1.identity == identity {
            found := Some(prior);
          }
        }
      }
      if found.None? && c.marker.Some? {
        assert Get(byMarker, c.marker.value) == ByMarker(prev, c.marker.value);
        if c.marker.value in byMarker && byMarker[c.marker.value].0 !in claimed {
          var prior := byMarker[c.marker.value];
          identity := if prior.1.identity.Some? then prior.1.identity else c.identity;
          if identity.None? {
            FailureStays(true, prev, cs, k + 1);
            return Err(GitFailed);
          }
          found := Some(prior);
        }
      }
      if found.Some? && found.value.0 !in claimed {
        claimed := claimed + {found.value.0};
        matched := matched[c.path := (found.value.0, identity.value)];
      }
    }
    assert cs[..|cs|] == cs;
    return Ok(Claims(matched, claimed));
  }

  lemma {:induction false} FailureStays(cheap: bool, prev: Listing, cs: seq<Candidate>, k: nat)
    requires k <= |cs| && (cheap || AllIdentified(cs)) && FirstPass(cheap, prev, cs[..k]).Err?
    ensures FirstPass(cheap, prev, cs) == Err(GitFailed)
    decreases |cs| - k
  {
    if k < |cs| {
      assert cs[..k + 1][..k] == cs[..k];
      FailureStays(cheap, prev, cs, k + 1);
    } else {
      assert cs[..k] == cs;
      assert FirstPass(cheap, prev, cs).error.GitFailed?;
    }
  }

  /** First loop of the full scan. */
  method FullDirectPass(
    ghost prev: Listing, cs: seq<Candidate>, byPath: map<Path, (Id, Entry)>, byMarker: map<Marker, (Id, Entry)>)
    returns (claims: Claims)
    requires AllIdentified(cs)
    requires forall p :: Get(byPath, p) == ByPath(prev, p)
    requires forall m: Marker :: Get(byMarker, m) == ByMarker(prev, m)
    ensures FirstPass(false, prev, cs) == Ok(claims)
  {
    hide ByPath, ByMarker;
    var matched: map<Path, (Id, Identity)>, claimed: set<Id> := map[], {};
    for k := 0 to |cs|
      invariant FirstPass(false, prev, cs[..k]) == Ok(Claims(matched, claimed))
    {
      var c := cs[k];
      assert cs[..k + 1][..k] == cs[..k];
      assert Get(byPath, c.path) == ByPath(prev, c.path);
      var found: Option<(Id, Entry)> := None;
      if c.path in byPath {
        var prior := byPath[c.path];
        if prior.1.identity.None? || prior.1.identity == c.identity {
          found := Some(prior);
        }
      }
      if found.None? && c.marker.Some? {
        assert Get(byMarker, c.marker.value) == ByMarker(prev, c.marker.value);
        if c.marker.value in byMarker && byMarker[c.marker.value].0 !in claimed {
          var prior := byMarker[c.marker.value];
          if prior.1.identity.None? || prior.1.identity == c.identity {
            found := Some(prior);
          }
        }
      }
      if found.Some? && found.value.0 !in claimed {
        claimed := claimed + {found.value.0};
        matched := matched[c.path := (found.value.0, c.identity.value)];
      }
    }
    assert cs[..|cs|] == cs;
    return Claims(matched, claimed);
  }

  method UnclaimedUnder(es: Listing, claimed: set<Id>, available: seq<Path>) returns (ids: seq<Id>)
    ensures ids == Unclaimed(es, claimed, available)
  {
    ids := [];
    for k := 0 to |es|
      invariant ids == Unclaimed(es[..k], claimed, available)
    {
      assert es[..k + 1][..k] == es[..k];
      var (id, e) := es[k];
      if id !in claimed && e.path.Some? && Under(e.path.value, available) {
        ids := ids + [id];
      }
    }
    assert es[..|es|] == es;
  }

  lemma {:induction false} SecondFailureStays(
    prev: Listing, available: seq<Path>, cs: seq<Candidate>, first: Claims, k: nat)
    requires k <= |cs| && SecondPass(prev, available, cs[..k], first).Err?
    ensures SecondPass(prev, available, cs, first) == Err(GitFailed)
    decreases |cs| - k
  {
    if k < |cs| {
      assert cs[..k + 1][..k] == cs[..k];
      SecondFailureStays(prev, available, cs, first, k + 1);
    } else {
      assert cs[..k] == cs;
      assert SecondPass(prev, available, cs, first).error.GitFailed?;
    }
  }

  /** Second loop: an unmatched tree takes over the one unclaimed entry of its history, if there is exactly one. */
  method HistoryPass(
    ghost prev: Listing, available: seq<Path>, cs: seq<Candidate>, first: Claims, byPath: map<Path, (Id, Entry)>,
    byMarker: map<Marker, (Id, Entry)>, byIdentity: map<Identity, Listing>)
    returns (r: Result<Claims, Failure>)
    requires Indexes(prev, byPath, byMarker, byIdentity)
    ensures r == SecondPass(prev, available, cs, first)
  {
    hide ByPath, ByMarker, ByIdentity, Unclaimed;
    var matched, claimed := first.matched, first.claimed;
    for k := 0 to |cs|
      invariant SecondPass(prev, available, cs[..k], first) == Ok(Claims(matched, claimed))
    {
      var c := cs[k];
      assert cs[..k + 1][..k] == cs[..k];
      if c.path in matched || !c.isRepo {
        continue;
      }
      if c.identity.None? {
        assert Get(byPath, c.path) == ByPath(prev, c.path);
        assert c.marker.Some? ==> Get(byMarker, c.marker.value) == ByMarker(prev, c.marker.value);
        if c.path in byPath || (c.marker.Some? && c.marker.value in byMarker) {
          SecondFailureStays(prev, available, cs, first, k + 1);
          return Err(GitFailed);
        }
        continue;
      }
      var ids := UnclaimedUnder(GetAll(byIdentity, c.identity.value), claimed, available);
      assert ids == Movable(prev, c.identity.value, claimed, available);
      if |ids| == 1 && ids[0] !in claimed {
        matched := matched[c.path := (ids[0], c.identity.value)];
        claimed := claimed + {ids[0]};
      }
    }
    assert cs[..|cs|] == cs;
    return Ok(Claims(matched, claimed));
  }

  /** Third loop: entries of offline roots stay, the rest of the unmatched are removed. */
  method KeepOffline(cheap: bool, prev: Listing, claimed: set<Id>, s: Scan)
    returns (entries: map<Id, Entry>, removed: set<Id>)
    ensures entries == Preserved(cheap, prev, claimed, s) && removed == Removed(cheap, prev, claimed, s)
  {
    entries, removed := map[], {};
    for k := 0 to |prev|
      invariant entries == Preserved(cheap, prev[..k], claimed, s) && removed == Removed(cheap, prev[..k], claimed, s)
    {
      assert prev[..k + 1][..k] == prev[..k];
      var (id, e) := prev[k];
      if id in claimed {
        continue;
      }
      if Offline(cheap, e, s) {
        entries := entries[id := e];
      } else {
        removed := removed + {id};
      }
    }
    assert prev[..|prev|] == prev;
  }

  method FreshIdFor(c: Candidate, unavailable: set<Id>) returns (id: Id)
    ensures id == FreshId(c, unavailable)
  {
    hide FirstFree, Suffixed;
    var stem := c.slug;
    if stem in unavailable {
      stem := c.slug + "-" + c.fingerprint;
    }
    id := CountUp(stem, unavailable);
  }

  /** The suffix counter. */
  method CountUp(stem: Id, unavailable: set<Id>) returns (id: Id)
    ensures id == if stem in unavailable then FirstFree(stem, 2, unavailable) else stem
  {
    hide Suffixed, Tried;
    var counter := 2;
    id := stem;
    while id in unavailable
      invariant counter == 2 ==> id == stem
      invariant counter >= 2 && (counter > 2 ==> stem in unavailable && id == Suffixed(stem, counter - 1))
      invariant counter > 2 ==> FirstFree(stem, 2, unavailable) == FirstFree(stem, counter - 1, unavailable)
      decreases counter == 2, |unavailable - Tried(stem, counter - 1)|
    {
      if counter > 2 {
        CounterProgress(stem, counter - 1, unavailable);
      }
      id := Suffixed(stem, counter);
      counter := counter + 1;
    }
  }

  method WriteMatched(cs: seq<Candidate>, claims: Claims, kept: map<Id, Entry>) returns (entries: map<Id, Entry>)
    ensures entries == kept + Matched(cs, claims)
  {
    entries := kept;
    for k := 0 to |cs|
      invariant entries == kept + Matched(cs[..k], claims)
    {
      assert cs[..k + 1][..k] == cs[..k];
      if cs[k].path in claims.matched {
        var (id, identity) := claims.matched[cs[k].path];
        entries := entries[id := Record(cs[k], identity)];
      }
    }
    assert cs[..|cs|] == cs;
  }

  /** The cheap scan's last loop: every other ID is already an entry, retired or reserved. */
  method AddFresh(cs: seq<Candidate>, claims: Claims, before: map<Id, Entry>, gone: set<Id>, reserved: set<Id>)
    returns (r: Result<map<Id, Entry>, Failure>)
    ensures r == if Unreadable(true, cs, claims) then Err(GitFailed)
      else Ok(before + Added(cs, claims, before.Keys + gone + reserved))
  {
    ghost var taken := before.Keys + gone + reserved;
    var entries := before;
    for k := 0 to |cs|
      invariant entries == before + Added(cs[..k], claims, taken)
      invariant forall i :: 0 <= i < k && Joins(claims, cs[i]) ==> cs[i].readable
    {
      assert cs[..k + 1][..k] == cs[..k];
      var c := cs[k];
      if c.path !in claims.matched && c.isRepo && c.identity.Some? {
        assert entries.Keys + gone + reserved == taken + Added(cs[..k], claims, taken).Keys;
        var id := FreshIdFor(c, entries.Keys + gone + reserved);
        if !c.readable {
          assert c in cs;
          return Err(GitFailed);
        }
        entries := entries[id := Record(c, c.identity.value)];
      }
    }
    assert cs[..|cs|] == cs;
    return Ok(entries);
  }

  /** The cheap scan. */
  method ReconcileMembership(prev: Listing, retired: set<Id>, s: Scan) returns (r: Result<Registry, Failure>)
    ensures r == Reconcile(true, prev, retired, s)
  {
    hide FirstPass, SecondPass, Preserved, Removed, Matched, Added, Indexes, Discover, Unreadable;
    var found := DiscoverTrees(true, s.roots);
    var candidates := s.order(found);
    var byPath, byMarker, byIdentity := IndexPrevious(prev);
    IndexesAgree(prev, byPath, byMarker, byIdentity);
    var first := CheapDirectPass(prev, candidates, byPath, byMarker);
    if first.Err? {
      return Err(first.error);
    }
    var bound := HistoryPass(prev, s.Available(), candidates, first.value, byPath, byMarker, byIdentity);
    if bound.Err? {
      return Err(bound.error);
    }
    var kept, removed := KeepOffline(true, prev, bound.value.claimed, s);
    var gone := retired + removed;
    var written := WriteMatched(candidates, bound.value, kept);
    assert written.Keys == kept.Keys + Matched(candidates, bound.value).Keys;
    var entries := AddFresh(candidates, bound.value, written, gone, s.reserved);
    if entries.Err? {
      return Err(entries.error);
    }
    return Ok(Registry(entries.value, gone - entries.value.Keys));
  }

  lemma IndexesAgree(
    prev: Listing, byPath: map<Path, (Id, Entry)>, byMarker: map<Marker, (Id, Entry)>, byIdentity: map<Identity, Listing>)
    requires Indexes(prev, byPath, byMarker, byIdentity)
    ensures forall p :: Get(byPath, p) == ByPath(prev, p)
    ensures forall m: Marker :: Get(byMarker, m) == ByMarker(prev, m)
  {
  }

  /** The full scan asks for every identity before it matches anything. */
  method RecordIdentities(
    ghost prev: Listing, all: seq<Candidate>, byPath: map<Path, (Id, Entry)>, byMarker: map<Marker, (Id, Entry)>)
    returns (r: Result<seq<Candidate>, Failure>)
    requires forall p :: Get(byPath, p) == ByPath(prev, p)
    requires forall m: Marker :: Get(byMarker, m) == ByMarker(prev, m)
    ensures r == Records(prev, all)
  {
    hide ByPath, ByMarker;
    var cs: seq<Candidate> := [];
    for k := 0 to |all|
      invariant Records(prev, all[..k]) == Ok(cs)
    {
      var c := all[k];
      assert all[..k + 1][..k] == all[..k];
      if c.identity.None? {
        assert Get(byPath, c.path) == ByPath(prev, c.path);
        assert c.marker.Some? ==> Get(byMarker, c.marker.value) == ByMarker(prev, c.marker.value);
        if c.path in byPath || (c.marker.Some? && c.marker.value in byMarker) {
          RecordFailureStays(prev, all, k + 1);
          return Err(GitFailed);
        }
        continue;
      }
      cs := cs + [c];
    }
    assert all[..|all|] == all;
    return Ok(cs);
  }

  lemma {:induction false} RecordFailureStays(prev: Listing, cs: seq<Candidate>, k: nat)
    requires k <= |cs| && Records(prev, cs[..k]).Err?
    ensures Records(prev, cs) == Err(GitFailed)
    decreases |cs| - k
  {
    if k < |cs| {
      assert cs[..k + 1][..k] == cs[..k];
      RecordFailureStays(prev, cs, k + 1);
    } else {
      assert cs[..k] == cs;
      assert Records(prev, cs).error.GitFailed?;
    }
  }

  lemma ClaimedAreMatched(prev: Listing, cs: seq<Candidate>, claims: Claims)
    requires ClaimsOk(prev, cs, claims)
    ensures claims.claimed == Matched(cs, claims).Keys
  {
    MatchedExactly(cs, claims);
    forall id | id in claims.claimed
      ensures id in Matched(cs, claims)
    {
      var p :| p in claims.matched && claims.matched[p].0 == id;
      var c :| c in cs && c.path == p;
    }
    forall id | id in Matched(cs, claims)
      ensures id in claims.claimed
    {
      assert WrittenFor(cs, claims, id, Matched(cs, claims)[id]);
    }
  }

  predicate OwnIdentities(cs: seq<Candidate>, claims: Claims) {
    forall c :: c in cs && c.path in claims.matched ==> c.identity == Some(claims.matched[c.path].1)
  }

  lemma {:induction false} FullFirstPassOwn(prev: Listing, cs: seq<Candidate>, k: nat)
    requires AllIdentified(cs) && k <= |cs| && FirstPass(false, prev, cs[..k]).Ok?
    requires Distinct(cs)
    ensures OwnIdentities(cs, FirstPass(false, prev, cs[..k]).value)
  {
    if k > 0 {
      assert cs[..k][..k - 1] == cs[..k - 1] && cs[..k][k - 1] == cs[k - 1];
      FullFirstPassOwn(prev, cs, k - 1);
    }
  }

  lemma {:induction false} SecondPassOwn(
    prev: Listing, available: seq<Path>, cs: seq<Candidate>, first: Claims, k: nat)
    requires k <= |cs| && SecondPass(prev, available, cs[..k], first).Ok? && OwnIdentities(cs, first)
    requires Distinct(cs)
    ensures OwnIdentities(cs, SecondPass(prev, available, cs[..k], first).value)
  {
    if k > 0 {
      assert cs[..k][..k - 1] == cs[..k - 1] && cs[..k][k - 1] == cs[k - 1];
      SecondPassOwn(prev, available, cs, first, k - 1);
    }
  }

  lemma OverwriteMiddle(kept: map<Id, Entry>, m: map<Id, Entry>, a: map<Id, Entry>, id: Id, e: Entry)
    requires id !in a
    ensures (kept + m + a)[id := e] == kept + m[id := e] + a
  {
  }

  /** The full scan's last loop writes matched and fresh entries together. */
  method WriteAll(
    cs: seq<Candidate>, claims: Claims, kept: map<Id, Entry>, gone: set<Id>, reserved: set<Id>)
    returns (r: Result<map<Id, Entry>, Failure>)
    requires AllIdentified(cs) && (forall c :: c in cs ==> c.isRepo) && OwnIdentities(cs, claims)
    requires claims.claimed == Matched(cs, claims).Keys
    ensures r == if Unreadable(false, cs, claims) then Err(GitFailed)
      else Ok(kept + Matched(cs, claims) + Added(cs, claims, kept.Keys + claims.claimed + gone + reserved))
  {
    hide Matched, Added, OwnIdentities, FreshId;
    ghost var taken := kept.Keys + claims.claimed + gone + reserved;
    EmptyPasses(claims, taken);
    var used := kept.Keys;
    var entries := kept;
    assert cs[..0] == [];
    for k := 0 to |cs|
      invariant entries == kept + Matched(cs[..k], claims) + Added(cs[..k], claims, taken)
      invariant Matched(cs[..k], claims).Keys <= claims.claimed
      invariant used == entries.Keys
      invariant forall i :: 0 <= i < k ==> cs[i].readable
    {
      var c := cs[k];
      var entry := Record(c, c.identity.value);
      var id: Id;
      WriteStep(cs, claims, kept, taken, k);
      if c.path in claims.matched {
        id := claims.matched[c.path].0;
      } else {
        var unavailable := used + claims.claimed + gone + reserved;
        assert unavailable == taken + Added(cs[..k], claims, taken).Keys;
        id := FreshIdFor(c, unavailable);
      }
      used := used + {id};
      if !c.readable {
        assert c in cs;
        return Err(GitFailed);
      }
      entries := entries[id := entry];
    }
    assert cs[..|cs|] == cs;
    return Ok(entries);
  }

  lemma EmptyPasses(claims: Claims, taken: set<Id>)
    ensures Matched([], claims) == map[] && Added([], claims, taken) == map[]
  {
  }

  lemma WriteStep(cs: seq<Candidate>, claims: Claims, kept: map<Id, Entry>, taken: set<Id>, k: nat)
    requires k < |cs| && AllIdentified(cs) && cs[k].isRepo && OwnIdentities(cs, claims)
    requires claims.claimed == Matched(cs, claims).Keys && claims.claimed <= taken
    requires Matched(cs[..k], claims).Keys <= claims.claimed
    ensures var c := cs[k];
      var m, a := Matched(cs[..k], claims), Added(cs[..k], claims, taken);
      var id := if c.path in claims.matched then claims.matched[c.path].0 else FreshId(c, taken + a.Keys);
      && (kept + m + a)[id := Record(c, c.identity.value)]
        == kept + Matched(cs[..k + 1], claims) + Added(cs[..k + 1], claims, taken)
      && Matched(cs[..k + 1], claims).Keys <= claims.claimed
  {
    var c := cs[k];
    assert cs[..k + 1][..k] == cs[..k] && c in cs;
    var m, a := Matched(cs[..k], claims), Added(cs[..k], claims, taken);
    if c.path in claims.matched {
      MatchedWithin(cs, claims, c);
      OverwriteMiddle(kept, m, a, claims.matched[c.path].0, Record(c, c.identity.value));
    }
  }

  lemma {:induction false} MatchedWithin(cs: seq<Candidate>, claims: Claims, c: Candidate)
    requires c in cs && c.path in claims.matched
    ensures claims.matched[c.path].0 in Matched(cs, claims)
  {
    if c in cs[..|cs| - 1] {
      MatchedWithin(cs[..|cs| - 1], claims, c);
    }
  }

  lemma FullBoundOwn(prev: Listing, s: Scan, cs: seq<Candidate>)
    requires AllIdentified(cs) && Bound(false, prev, s, cs).Ok?
    requires Distinct(cs)
    ensures var claims := Bound(false, prev, s, cs).value;
      OwnIdentities(cs, claims) && claims.claimed == Matched(cs, claims).Keys
  {
    assert cs[..|cs|] == cs;
    BoundOk(false, prev, s, cs);
    FullFirstPassOwn(prev, cs, |cs|);
    SecondPassOwn(prev, s.Available(), cs, FirstPass(false, prev, cs).value, |cs|);
    ClaimedAreMatched(prev, cs, Bound(false, prev, s, cs).value);
  }

  /** The full scan. */
  method BuildRegistry(prev: Listing, retired: set<Id>, s: Scan) returns (r: Result<Registry, Failure>)
    requires Discovered(s)
    ensures r == Reconcile(false, prev, retired, s)
  {
    hide FirstPass, SecondPass, Preserved, Removed, Matched, Added, Indexes, Records, OwnIdentities, Discovered, Discover, Unreadable;
    var found := DiscoverTrees(false, s.roots);
    var all := s.order(found);
    var byPath, byMarker, byIdentity := IndexPrevious(prev);
    IndexesAgree(prev, byPath, byMarker, byIdentity);
    var records := RecordIdentities(prev, all, byPath, byMarker);
    if records.Err? {
      return Err(records.error);
    }
    var cs := records.value;
    DistinctRecords(prev, s);
    var first := FullDirectPass(prev, cs, byPath, byMarker);
    var bound := HistoryPass(prev, s.Available(), cs, first, byPath, byMarker, byIdentity);
    if bound.Err? {
      return Err(bound.error);
    }
    var claims := bound.value;
    FullBoundOwn(prev, s, cs);
    var kept, removed := KeepOffline(false, prev, claims.claimed, s);
    var gone := retired + removed;
    var entries := WriteAll(cs, claims, kept, gone, s.reserved);
    if entries.Err? {
      return Err(entries.error);
    }
    return Ok(Registry(entries.value, gone - entries.value.Keys));
  }

  lemma DistinctRecords(prev: Listing, s: Scan)
    requires Discovered(s) && Records(prev, Candidates(false, s)).Ok?
    ensures var cs := Records(prev, Candidates(false, s)).value;
      Distinct(cs) && forall c :: c in cs ==> c.isRepo
  {
    CandidatesAreTrees(false, s);
    RecordsKeepOrder(prev, Candidates(false, s));
  }
}
