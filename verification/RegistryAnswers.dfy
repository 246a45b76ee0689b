/**
What a scan answers, stated over the old registry, the trees found and the new registry alone: which tree
keeps which old ID, which trees get a fresh one and what it is, what becomes of the other old entries, and
when the scan raises.
*/
module RegistryAnswers {
  import opened Prelude
  import opened RegistryRules
  import opened RegistryScans
  import opened RegistryBuilder

  // ---------------------------------------------------------------- the direct rules

  predicate Unchanged(e: Entry, c: Candidate) {
    e.marker.None? || e.marker == c.marker
  }

  predicate SameHistory(e: Entry, c: Candidate) {
    e.identity.None? || e.identity == c.identity
  }

  /** The entry stands at the tree's path, and nothing says that the tree was replaced. */
  predicate StillThere(cheap: bool, e: Entry, c: Candidate) {
    e.path == Some(c.path) && ((cheap && Unchanged(e, c)) || SameHistory(e, c))
  }

  ghost predicate FirstWith(prev: Listing, id: Id, marker: Marker) {
    exists i :: 0 <= i < |prev| && FirstAt(prev, i, id, marker)
  }

  predicate FirstAt(prev: Listing, i: nat, id: Id, marker: Marker)
    requires i < |prev|
  {
    prev[i].0 == id && prev[i].1.marker == Some(marker) && forall j :: 0 <= j < i ==> prev[j].1.marker != Some(marker)
  }

  /** The first old entry with the tree's own marker. */
  ghost predicate CarriedAlong(cheap: bool, prev: Listing, id: Id, e: Entry, c: Candidate) {
    c.marker.Some? && FirstWith(prev, id, c.marker.value) && (cheap || SameHistory(e, c))
  }

  /** A direct rule gives the tree this ID, which no earlier tree has taken. */
  ghost predicate Direct(cheap: bool, r: Registry, prev: Listing, c: Candidate, id: Id, taken: set<Id>) {
    && id in r.repos && id !in taken
    && (StillThere(cheap, r.repos[id], c)
      || (CarriedAlong(cheap, prev, id, r.repos[id], c) && forall x :: x in r.repos ==> !StillThere(cheap, r.repos[x], c)))
  }

  function Held(ids: seq<Option<Id>>, k: nat): set<Id>
    requires k <= |ids|
  {
    set j | 0 <= j < k && ids[j].Some? :: ids[j].value
  }

  /** d[k] is the ID that a direct rule gives to the k-th tree. */
  ghost predicate Directly(cheap: bool, r: Registry, prev: Listing, cs: seq<Candidate>, d: seq<Option<Id>>) {
    |d| == |cs| && forall k, id :: 0 <= k < |cs| ==> (d[k] == Some(id) <==> Direct(cheap, r, prev, cs[k], id, Held(d, k)))
  }

  // ---------------------------------------------------------------- moves

  ghost predicate Beneath(path: Option<Path>, s: Scan) {
    path.Some? && exists k :: 0 <= k < |s.roots| && s.roots[k].site.path <= path.value
  }

  /** An old entry, unclaimed so far, of the tree's own history and with its place under an available root. */
  ghost predicate Fits(r: Registry, s: Scan, c: Candidate, id: Id, taken: set<Id>) {
    && id in r.repos && id !in taken && c.identity.Some? && r.repos[id].identity == c.identity
    && Beneath(r.repos[id].path, s)
  }

  ghost predicate AloneFits(r: Registry, s: Scan, c: Candidate, id: Id, taken: set<Id>) {
    Fits(r, s, c, id, taken) && forall x :: Fits(r, s, c, x, taken) ==> x == id
  }

  /** h[k] is the old ID the k-th tree ends up with: its direct one, or else that of the only entry that fits at its turn. */
  ghost predicate Moved(
    r: Registry, s: Scan, cs: seq<Candidate>, d: seq<Option<Id>>, direct: set<Id>, h: seq<Option<Id>>)
    requires |d| == |cs|
  {
    && |h| == |cs|
    && (forall k :: 0 <= k < |cs| && d[k].Some? ==> h[k] == d[k])
    && (forall k, id :: 0 <= k < |cs| && d[k].None? ==>
      (h[k] == Some(id) <==> AloneFits(r, s, cs[k], id, direct + Held(h, k))))
  }

  // ---------------------------------------------------------------- fresh IDs

  predicate Least(stem: Id, n: nat, m: nat, unavailable: set<Id>, id: Id) {
    id == stem + "-" + Decimal(m) && forall i: nat :: n <= i < m ==> stem + "-" + Decimal(i) in unavailable
  }

  /** The tree's slug, the slug with its fingerprint, or that with the least free number from two on. */
  ghost predicate FirstName(c: Candidate, id: Id, unavailable: set<Id>) {
    var stem := c.slug + "-" + c.fingerprint;
    && id !in unavailable
    && (c.slug !in unavailable ==> id == c.slug)
    && (c.slug in unavailable && stem !in unavailable ==> id == stem)
    && (c.slug in unavailable && stem in unavailable ==>
      exists m: nat :: m >= 2 && Least(stem, 2, m, unavailable, id))
  }

  /** IDs that no tree may be given any more when the k-th is named. */
  function Unavailable(r: Registry, s: Scan, n: seq<Option<Id>>, k: nat): set<Id>
    requires k <= |n|
  {
    r.repos.Keys + r.retired + s.reserved + Held(n, k)
  }

  /** n[k] is the k-th tree's ID afterwards: its old one, or the first free name for an admissible tree. */
  ghost predicate Named(r: Registry, s: Scan, cs: seq<Candidate>, h: seq<Option<Id>>, n: seq<Option<Id>>)
    requires |h| == |cs|
  {
    && |n| == |cs|
    && (forall k :: 0 <= k < |cs| && h[k].Some? ==> n[k] == h[k])
    && (forall k :: 0 <= k < |cs| && h[k].None? && cs[k].identity.None? ==> n[k] == None)
    && (forall k :: 0 <= k < |cs| && h[k].None? && cs[k].identity.Some? ==>
      n[k].Some? && FirstName(cs[k], n[k].value, Unavailable(r, s, n, k)))
  }

  // ---------------------------------------------------------------- the new registry

  /** The tree as recorded: a recorded history is kept, and no history but the tree's own is new. */
  function Written(r: Registry, c: Candidate, id: Id): Entry {
    var identity := if id in r.repos && r.repos[id].identity.Some? then r.repos[id].identity else c.identity;
    Entry(c.name, Some(c.path), c.marker, identity)
  }

  /** The entry's place is under no available root; the full scan also wants it under a configured one. */
  ghost predicate Away(cheap: bool, e: Entry, s: Scan) {
    && e.path.Some? && !Beneath(e.path, s)
    && (cheap || exists k :: 0 <= k < |s.configured| && s.configured[k] <= e.path.value)
  }

  /** Each tree is written under its ID; an old entry that no tree took stays if its root is away and is else retired. */
  ghost predicate Becomes(
    cheap: bool, r: Registry, s: Scan, cs: seq<Candidate>, h: seq<Option<Id>>, n: seq<Option<Id>>, t: Registry)
    requires |h| == |n| == |cs|
  {
    && (forall k :: 0 <= k < |cs| && n[k].Some? ==> n[k].value in t.repos && t.repos[n[k].value] == Written(r, cs[k], n[k].value))
    && (forall id :: id in r.repos && id !in Held(h, |h|) ==>
      if Away(cheap, r.repos[id], s) then id in t.repos && t.repos[id] == r.repos[id] else id in t.retired && id !in t.repos)
    && t.repos.Keys <= r.repos.Keys + Held(n, |n|)
    && (forall id :: id in t.retired <==>
      id in r.retired || (id in r.repos && id !in Held(h, |h|) && !Away(cheap, r.repos[id], s)))
  }

  // ---------------------------------------------------------------- when a scan raises

  /** The entry at the tree's path has another marker, or no history recorded. */
  ghost predicate ReplacedAt(r: Registry, c: Candidate) {
    exists id :: id in r.repos && r.repos[id].path == Some(c.path) && (!Unchanged(r.repos[id], c) || r.repos[id].identity.None?)
  }

  ghost predicate NobodyThere(r: Registry, c: Candidate) {
    forall id :: id in r.repos ==> r.repos[id].path != Some(c.path)
  }

  /** The unclaimed entry with the tree's marker has no history recorded. */
  ghost predicate AsksByMarker(r: Registry, prev: Listing, c: Candidate, taken: set<Id>) {
    exists id :: id in r.repos && id !in taken && CarriedAlong(true, prev, id, r.repos[id], c) && r.repos[id].identity.None?
  }

  /** Git must be asked for the tree's history before a direct rule can be applied. */
  ghost predicate MustAsk(r: Registry, prev: Listing, c: Candidate, taken: set<Id>) {
    ReplacedAt(r, c) || (NobodyThere(r, c) && AsksByMarker(r, prev, c, taken))
  }

  ghost predicate KnownTo(r: Registry, c: Candidate) {
    exists id :: id in r.repos && (r.repos[id].path == Some(c.path) || (c.marker.Some? && r.repos[id].marker == c.marker))
  }

  ghost predicate AsksInVain(r: Registry, prev: Listing, cs: seq<Candidate>, d: seq<Option<Id>>, k: nat)
    requires k < |cs| == |d|
  {
    cs[k].identity.None? && (MustAsk(r, prev, cs[k], Held(d, k)) || (d[k].None? && cs[k].isRepo && KnownTo(r, cs[k])))
  }

  /** The cheap scan asks only where it must, and for the state of new trees; the full scan asks for everything. */
  ghost predicate Raises(
    cheap: bool, r: Registry, prev: Listing, s: Scan, cs: seq<Candidate>, d: seq<Option<Id>>, h: seq<Option<Id>>)
    requires |d| == |h| == |cs|
  {
    if cheap then
      || (exists k :: 0 <= k < |cs| && AsksInVain(r, prev, cs, d, k))
      || (exists k :: 0 <= k < |cs| && h[k].None? && cs[k].identity.Some? && !cs[k].readable)
    else
      || (exists c :: c in Candidates(false, s) && c.identity.None? && KnownTo(r, c))
      || (exists k :: 0 <= k < |cs| && !cs[k].readable)
  }

  /** The full scan goes on with the trees that have a history. */
  function WithHistory(cs: seq<Candidate>): (r: seq<Candidate>)
    ensures AllIdentified(r) && forall c :: c in r <==> c in cs && c.identity.Some?
  {
    if cs == [] then []
    else
      var rest := WithHistory(cs[..|cs| - 1]);
      var c := cs[|cs| - 1];
      assert forall x :: x in cs <==> x in cs[..|cs| - 1] || x == c;
      if c.identity.Some? then rest + [c] else rest
  }

  function Trees(cheap: bool, s: Scan): seq<Candidate> {
    if cheap then Candidates(true, s) else WithHistory(Candidates(false, s))
  }

  /** The whole answer: d, h and n are determined, and the scan raises exactly when it asks in vain. */
  ghost predicate Answers(
    cheap: bool, r: Registry, prev: Listing, s: Scan, d: seq<Option<Id>>, h: seq<Option<Id>>, n: seq<Option<Id>>,
    t: Result<Registry, Failure>)
  {
    var cs := Trees(cheap, s);
    && Directly(cheap, r, prev, cs, d) && Moved(r, s, cs, d, Held(d, |d|), h) && Named(r, s, cs, h, n)
    && (t.Err? <==> Raises(cheap, r, prev, s, cs, d, h))
    && (t.Ok? ==> Becomes(cheap, r, s, cs, h, n, t.value))
  }

  // ---------------------------------------------------------------- the lookups

  lemma PathLookup(r: Registry, prev: Listing, path: Path)
    requires Lists(prev, r.repos) && RegistryInv(r)
    ensures var e := ByPath(prev, path);
      && (e.Some? ==> e.value.0 in r.repos && e.value.1 == r.repos[e.value.0] && e.value.1.path == Some(path))
      && forall id :: id in r.repos && r.repos[id].path == Some(path) ==> e.Some? && e.value.0 == id
  {
    var e := ByPath(prev, path);
    forall id | id in r.repos && r.repos[id].path == Some(path)
      ensures e.Some? && e.value.0 == id
    {
      assert (id, r.repos[id]) in prev;
      if e.Some? {
        assert (e.value.0, e.value.1) in prev;
      }
    }
    if e.Some? {
      assert (e.value.0, e.value.1) in prev;
    }
  }

  lemma {:induction false} FirstStays(prev: Listing, marker: Marker)
    ensures var e := ByMarker(prev, marker);
      e.Some? ==> exists i :: 0 <= i < |prev| && prev[i] == e.value && FirstAt(prev, i, e.value.0, marker)
  {
    if prev != [] {
      var rest := prev[..|prev| - 1];
      FirstStays(rest, marker);
      var e := ByMarker(prev, marker);
      if ByMarker(rest, marker).Some? {
        var i :| 0 <= i < |rest| && rest[i] == e.value && FirstAt(rest, i, e.value.0, marker);
        assert prev[i] == e.value && FirstAt(prev, i, e.value.0, marker);
      } else if e.Some? {
        forall j | 0 <= j < |rest|
          ensures prev[j].1.marker != Some(marker)
        {
          assert prev[j] in rest;
        }
        assert FirstAt(prev, |prev| - 1, e.value.0, marker);
      }
    }
  }

  lemma MarkerLookup(r: Registry, prev: Listing, marker: Marker)
    requires Lists(prev, r.repos)
    ensures var e := ByMarker(prev, marker);
      && (e.Some? ==> e.value.0 in r.repos && e.value.1 == r.repos[e.value.0] && e.value.1.marker == Some(marker))
      && (e.Some? ==> FirstWith(prev, e.value.0, marker))
      && (forall id :: FirstWith(prev, id, marker) ==> e.Some? && e.value.0 == id)
      && (e.None? ==> forall id :: id in r.repos ==> r.repos[id].marker != Some(marker))
  {
    var e := ByMarker(prev, marker);
    FirstStays(prev, marker);
    if e.Some? {
      assert (e.value.0, e.value.1) in prev;
    }
    forall id | FirstWith(prev, id, marker)
      ensures e.Some? && e.value.0 == id
    {
      var i :| 0 <= i < |prev| && FirstAt(prev, i, id, marker);
      assert prev[i] in prev;
      var k :| 0 <= k < |prev| && prev[k] == e.value && FirstAt(prev, k, e.value.0, marker);
      assert i == k;
    }
    if e.None? {
      forall id | id in r.repos
        ensures r.repos[id].marker != Some(marker)
      {
        assert (id, r.repos[id]) in prev;
      }
    }
  }

  /** What the direct rules find: the one ID they give, the identity it is bound to, and when Git must be asked. */
  ghost predicate Finds(
    cheap: bool, r: Registry, prev: Listing, c: Candidate, taken: set<Id>, m: Result<RegistryRules.Direct, Failure>)
  {
    && (m.Err? <==> cheap && c.identity.None? && MustAsk(r, prev, c, taken))
    && (m.Ok? ==> forall id :: Direct(cheap, r, prev, c, id, taken) <==> m.value.Some? && m.value.value.0.0 == id && id !in taken)
    && (m.Ok? && m.value.Some? ==> Binds(r, c, m.value.value))
  }

  /** One old entry is bound to the identity that its record or the tree gives. */
  ghost predicate Binds(r: Registry, c: Candidate, found: ((Id, Entry), Identity)) {
    var (e, identity) := found;
    e.0 in r.repos && Some(identity) == Written(r, c, e.0).identity
  }

  ghost predicate NobodyStays(cheap: bool, r: Registry, c: Candidate) {
    forall id :: id in r.repos ==> !StillThere(cheap, r.repos[id], c)
  }

  lemma PathExactly(cheap: bool, r: Registry, prev: Listing, c: Candidate)
    requires Lists(prev, r.repos) && RegistryInv(r) && (cheap || c.identity.Some?)
    ensures var m := if cheap then CheapByPath(prev, c) else Ok(FullByPath(prev, c));
      && (m.Err? <==> cheap && c.identity.None? && ReplacedAt(r, c))
      && (m.Ok? && m.value.Some? ==> Binds(r, c, m.value.value) && StillThere(cheap, r.repos[m.value.value.0.0], c))
      && (m.Ok? && m.value.None? ==> NobodyStays(cheap, r, c) && (c.identity.None? ==> NobodyThere(r, c)))
  {
    PathLookup(r, prev, c.path);
    hide ByPath, Lists, RegistryInv;
    var p := ByPath(prev, c.path);
    if p.Some? {
      assert forall id :: id in r.repos && r.repos[id].path == Some(c.path) ==> id == p.value.0;
    } else {
      assert NobodyThere(r, c);
    }
  }

  lemma MarkerExactly(cheap: bool, r: Registry, prev: Listing, c: Candidate, taken: set<Id>)
    requires Lists(prev, r.repos) && (cheap || c.identity.Some?)
    ensures var m := if cheap then CheapByMarker(prev, c, taken) else Ok(FullByMarker(prev, c, taken));
      && (m.Err? <==> cheap && c.identity.None? && AsksByMarker(r, prev, c, taken))
      && (m.Ok? && m.value.Some? ==> Binds(r, c, m.value.value))
      && (m.Ok? ==> forall id :: id in r.repos && id !in taken && CarriedAlong(cheap, prev, id, r.repos[id], c) <==>
        m.value.Some? && m.value.value.0.0 == id)
  {
    if c.marker.Some? {
      MarkerLookup(r, prev, c.marker.value);
      hide ByMarker, FirstWith, Lists;
      var p := ByMarker(prev, c.marker.value);
      if p.Some? {
        assert forall id :: FirstWith(prev, id, c.marker.value) ==> id == p.value.0;
      }
    }
  }

  lemma DirectExactly(cheap: bool, r: Registry, prev: Listing, c: Candidate, taken: set<Id>)
    requires Lists(prev, r.repos) && RegistryInv(r) && (cheap || c.identity.Some?)
    ensures Finds(cheap, r, prev, c, taken, DirectMatch(cheap, prev, c, taken))
  {
    PathExactly(cheap, r, prev, c);
    MarkerExactly(cheap, r, prev, c, taken);
    hide CheapByPath, CheapByMarker, FullByPath, FullByMarker, CarriedAlong, Lists, RegistryInv, Written;
    if cheap && CheapByPath(prev, c).Ok? && CheapByPath(prev, c).value.Some? {
      OnlyOneStays(cheap, r, c, CheapByPath(prev, c).value.value.0.0);
    } else if !cheap && FullByPath(prev, c).Some? {
      OnlyOneStays(cheap, r, c, FullByPath(prev, c).value.0.0);
    }
  }

  lemma OnlyOneStays(cheap: bool, r: Registry, c: Candidate, id: Id)
    requires RegistryInv(r) && id in r.repos && StillThere(cheap, r.repos[id], c)
    ensures forall x :: x in r.repos && StillThere(cheap, r.repos[x], c) ==> x == id
    ensures !NobodyThere(r, c)
  {
  }

  // ---------------------------------------------------------------- the first pass

  ghost function DirectChoice(cheap: bool, r: Registry, prev: Listing, c: Candidate, taken: set<Id>): Option<Id> {
    if exists id :: Direct(cheap, r, prev, c, id, taken) then
      var id :| Direct(cheap, r, prev, c, id, taken);
      Some(id)
    else None
  }

  ghost function DirectIds(cheap: bool, r: Registry, prev: Listing, cs: seq<Candidate>): (d: seq<Option<Id>>)
    ensures |d| == |cs|
  {
    if cs == [] then []
    else
      var d := DirectIds(cheap, r, prev, cs[..|cs| - 1]);
      d + [DirectChoice(cheap, r, prev, cs[|cs| - 1], Held(d, |d|))]
  }

  lemma HeldMore(ids: seq<Option<Id>>, more: seq<Option<Id>>, k: nat)
    requires k <= |ids| && ids <= more
    ensures Held(more, k) == Held(ids, k)
  {
    assert forall j :: 0 <= j < k ==> more[j] == ids[j];
  }

  lemma HeldOneMore(ids: seq<Option<Id>>, k: nat)
    requires k < |ids|
    ensures Held(ids, k + 1) == Held(ids, k) + if ids[k].Some? then {ids[k].value} else {}
  {
    forall id | id in Held(ids, k + 1)
      ensures id in Held(ids, k) || ids[k] == Some(id)
    {
      var j :| 0 <= j < k + 1 && ids[j] == Some(id);
    }
    assert Held(ids, k) <= Held(ids, k + 1);
  }

  lemma DirectUnique(cheap: bool, r: Registry, prev: Listing, c: Candidate, taken: set<Id>)
    requires Keyed(prev) && RegistryInv(r)
    ensures forall x, y :: Direct(cheap, r, prev, c, x, taken) && Direct(cheap, r, prev, c, y, taken) ==> x == y
  {
    forall x, y | Direct(cheap, r, prev, c, x, taken) && Direct(cheap, r, prev, c, y, taken)
      ensures x == y
    {
      if StillThere(cheap, r.repos[x], c) {
        OnlyOneStays(cheap, r, c, x);
      } else {
        var i :| 0 <= i < |prev| && FirstAt(prev, i, x, c.marker.value);
        var j :| 0 <= j < |prev| && FirstAt(prev, j, y, c.marker.value);
        assert i == j;
      }
    }
  }

  lemma {:induction false} DirectIdsExactly(cheap: bool, r: Registry, prev: Listing, cs: seq<Candidate>)
    requires Keyed(prev) && RegistryInv(r)
    ensures Directly(cheap, r, prev, cs, DirectIds(cheap, r, prev, cs))
  {
    if cs != [] {
      var rest := cs[..|cs| - 1];
      var c := cs[|cs| - 1];
      DirectIdsExactly(cheap, r, prev, rest);
      var d := DirectIds(cheap, r, prev, rest);
      var all := DirectIds(cheap, r, prev, cs);
      assert all[..|rest|] == d;
      DirectUnique(cheap, r, prev, c, Held(d, |d|));
      hide Direct, Held, RegistryInv, Keyed;
      forall k, id | 0 <= k < |cs|
        ensures all[k] == Some(id) <==> Direct(cheap, r, prev, cs[k], id, Held(all, k))
      {
        HeldMore(d, all, k);
        if k < |rest| {
          assert cs[k] == rest[k] && all[k] == d[k];
        }
      }
    }
  }

  /** What claims record: each tree's ID so far, bound to the identity it is written with, and nothing else. */
  ghost predicate Reflects(r: Registry, cs: seq<Candidate>, ids: seq<Option<Id>>, k: nat, claims: Claims)
    requires k <= |cs| == |ids|
  {
    && (forall j :: 0 <= j < k ==> (cs[j].path in claims.matched <==> ids[j].Some?))
    && (forall j :: 0 <= j < k && ids[j].Some? ==>
      claims.matched[cs[j].path].0 == ids[j].value
      && Some(claims.matched[cs[j].path].1) == Written(r, cs[j], ids[j].value).identity)
    && (forall p :: p in claims.matched ==> exists j :: 0 <= j < k && cs[j].path == p)
    && claims.claimed == Held(ids, k)
  }

  lemma ReflectsMore(r: Registry, cs: seq<Candidate>, ids: seq<Option<Id>>, k: nat, claims: Claims, identity: Identity)
    requires Distinct(cs) && k < |cs| == |ids| && Reflects(r, cs, ids, k, claims)
    requires ids[k].Some? ==> ids[k].value !in claims.claimed && Some(identity) == Written(r, cs[k], ids[k].value).identity
    ensures Reflects(r, cs, ids, k + 1, if ids[k].Some? then Claim(claims, cs[k].path, ids[k].value, identity) else claims)
  {
    HeldOneMore(ids, k);
    hide Held, Written;
    var t := if ids[k].Some? then Claim(claims, cs[k].path, ids[k].value, identity) else claims;
    assert cs[k].path !in claims.matched;
    forall p | p in t.matched
      ensures exists j :: 0 <= j < k + 1 && cs[j].path == p
    {
      if p in claims.matched {
        var j :| 0 <= j < k && cs[j].path == p;
      } else {
        assert cs[k].path == p;
      }
    }
  }

  lemma GivesNone(o: Option<Id>)
    requires forall id :: o != Some(id)
    ensures o.None?
  {
    match o
    case None =>
    case Some(id) =>
  }

  lemma FirstPassStep(
    cheap: bool, r: Registry, prev: Listing, cs: seq<Candidate>, d: seq<Option<Id>>, k: nat, claims: Claims)
    requires (cheap || AllIdentified(cs)) && Distinct(cs) && Directly(cheap, r, prev, cs, d) && k < |cs|
    requires Reflects(r, cs, d, k, claims) && Finds(cheap, r, prev, cs[k], Held(d, k), DirectMatch(cheap, prev, cs[k], Held(d, k)))
    ensures var m := DirectMatch(cheap, prev, cs[k], claims.claimed);
      && (m.Err? <==> cheap && cs[k].identity.None? && MustAsk(r, prev, cs[k], Held(d, k)))
      && (m.Ok? ==> Reflects(r, cs, d, k + 1,
        if m.value.Some? then Claim(claims, cs[k].path, m.value.value.0.0, m.value.value.1) else claims))
  {
    hide DirectMatch, Direct, MustAsk, Held, Written;
    var m := DirectMatch(cheap, prev, cs[k], claims.claimed);
    if m.Ok? {
      if m.value.Some? && m.value.value.0.0 !in claims.claimed {
        var ((id, e), identity) := m.value.value;
        assert Direct(cheap, r, prev, cs[k], id, Held(d, k));
        assert d[k] == Some(id);
        ReflectsMore(r, cs, d, k, claims, identity);
      } else {
        assert forall id :: !Direct(cheap, r, prev, cs[k], id, Held(d, k));
        GivesNone(d[k]);
        ReflectsMore(r, cs, d, k, claims, 0);
      }
    }
  }

  /** The first pass binds as the direct rules say, and raises where Git cannot answer. */
  lemma {:induction false} FirstPassExactly(
    cheap: bool, r: Registry, prev: Listing, cs: seq<Candidate>, d: seq<Option<Id>>, k: nat)
    requires Lists(prev, r.repos) && RegistryInv(r) && (cheap || AllIdentified(cs)) && Distinct(cs)
    requires Directly(cheap, r, prev, cs, d) && k <= |cs|
    ensures var f := FirstPass(cheap, prev, cs[..k]);
      && (f.Err? <==> cheap && exists j :: 0 <= j < k && cs[j].identity.None? && MustAsk(r, prev, cs[j], Held(d, j)))
      && (f.Ok? ==> Reflects(r, cs, d, k, f.value))
  {
    if k > 0 {
      FirstPassExactly(cheap, r, prev, cs, d, k - 1);
      hide MustAsk, Held, RegistryInv, Lists, Distinct, Directly;
      var c := cs[k - 1];
      assert cs[..k][..k - 1] == cs[..k - 1] && cs[..k][k - 1] == c;
      var f := FirstPass(cheap, prev, cs[..k - 1]);
      if f.Ok? {
        DirectExactly(cheap, r, prev, c, Held(d, k - 1));
        FirstPassStep(cheap, r, prev, cs, d, k - 1, f.value);
      }
    }
  }

  // ---------------------------------------------------------------- the second pass

  ghost function MoveChoice(r: Registry, s: Scan, c: Candidate, taken: set<Id>): Option<Id> {
    if exists id :: AloneFits(r, s, c, id, taken) then
      var id :| AloneFits(r, s, c, id, taken);
      Some(id)
    else None
  }

  ghost function MoveIds(
    r: Registry, s: Scan, cs: seq<Candidate>, d: seq<Option<Id>>, direct: set<Id>): (h: seq<Option<Id>>)
    requires |d| == |cs|
    ensures |h| == |cs|
    decreases |cs|
  {
    if cs == [] then []
    else
      var n := |cs| - 1;
      var h := MoveIds(r, s, cs[..n], d[..n], direct);
      h + [if d[n].Some? then d[n] else MoveChoice(r, s, cs[n], direct + Held(h, n))]
  }

  lemma {:induction false} MoveIdsExactly(
    r: Registry, s: Scan, cs: seq<Candidate>, d: seq<Option<Id>>, direct: set<Id>)
    requires |d| == |cs|
    ensures Moved(r, s, cs, d, direct, MoveIds(r, s, cs, d, direct))
    decreases |cs|
  {
    if cs != [] {
      var n := |cs| - 1;
      MoveIdsExactly(r, s, cs[..n], d[..n], direct);
      var h := MoveIds(r, s, cs[..n], d[..n], direct);
      var all := MoveIds(r, s, cs, d, direct);
      assert all[..n] == h;
      hide Fits, Held;
      forall k | 0 <= k < |cs|
        ensures d[k].Some? ==> all[k] == d[k]
        ensures d[k].None? ==> forall id :: all[k] == Some(id) <==> AloneFits(r, s, cs[k], id, direct + Held(all, k))
      {
        HeldMore(h, all, k);
        if k < n {
          assert cs[k] == cs[..n][k] && all[k] == h[k] && d[k] == d[..n][k];
        }
      }
    }
  }

  lemma {:induction false} IdentityListing(prev: Listing, identity: Identity)
    requires Keyed(prev)
    ensures var es := ByIdentity(prev, identity);
      Keyed(es) && forall e :: e in es <==> e in prev && e.1.identity == Some(identity)
  {
    if prev != [] {
      var rest := prev[..|prev| - 1];
      IdentityListing(rest, identity);
      assert prev == rest + [prev[|prev| - 1]];
      forall e | e in ByIdentity(rest, identity)
        ensures e.0 != prev[|prev| - 1].0
      {
        assert e in rest;
      }
    }
  }

  ghost predicate Offers(es: Listing, id: Id, s: Scan) {
    exists e :: (id, e) in es && Beneath(e.path, s)
  }

  lemma {:induction false} UnclaimedListing(es: Listing, claimed: set<Id>, s: Scan)
    requires Keyed(es)
    ensures var ids := Unclaimed(es, claimed, s.Available());
      NoDuplicates(ids) && forall id :: id in ids <==> id !in claimed && Offers(es, id, s)
  {
    if es != [] {
      var rest := es[..|es| - 1];
      var last := es[|es| - 1];
      UnclaimedListing(rest, claimed, s);
      var ids := Unclaimed(rest, claimed, s.Available());
      BeneathIsUnder(last.1.path, s);
      hide Beneath, Under;
      assert es == rest + [last];
      forall id
        ensures Offers(es, id, s) <==> Offers(rest, id, s) || (id == last.0 && Beneath(last.1.path, s))
      {
        assert (last.0, last.1) == last && last in es;
      }
    }
  }

  lemma BeneathIsUnder(path: Option<Path>, s: Scan)
    ensures Beneath(path, s) <==> path.Some? && Under(path.value, s.Available())
  {
    if Beneath(path, s) {
      var k :| 0 <= k < |s.roots| && s.roots[k].site.path <= path.value;
      assert s.Available()[k] <= path.value;
    }
  }

  lemma MovableExactly(r: Registry, prev: Listing, s: Scan, c: Candidate, taken: set<Id>)
    requires Lists(prev, r.repos) && c.identity.Some?
    ensures var ids := Movable(prev, c.identity.value, taken, s.Available());
      NoDuplicates(ids) && forall id :: id in ids <==> Fits(r, s, c, id, taken)
  {
    var es := ByIdentity(prev, c.identity.value);
    IdentityListing(prev, c.identity.value);
    UnclaimedListing(es, taken, s);
    hide ByIdentity, Unclaimed, Beneath;
    forall id
      ensures id in Movable(prev, c.identity.value, taken, s.Available()) <==> Fits(r, s, c, id, taken)
    {
      if Fits(r, s, c, id, taken) {
        assert (id, r.repos[id]) in es;
      }
    }
  }

  lemma OneIsAlone(r: Registry, s: Scan, c: Candidate, taken: set<Id>, ids: seq<Id>)
    requires NoDuplicates(ids) && forall id :: id in ids <==> Fits(r, s, c, id, taken)
    ensures |ids| == 1 ==> AloneFits(r, s, c, ids[0], taken)
    ensures |ids| != 1 ==> forall id :: !AloneFits(r, s, c, id, taken)
  {
    hide Fits;
    if |ids| == 1 {
      assert ids[0] in ids;
    } else if |ids| > 1 {
      assert ids[0] in ids && ids[1] in ids;
    }
  }

  lemma KnownExactly(r: Registry, prev: Listing, c: Candidate)
    requires Lists(prev, r.repos) && RegistryInv(r)
    ensures Known(prev, c) <==> KnownTo(r, c)
  {
    PathLookup(r, prev, c.path);
    if c.marker.Some? {
      MarkerLookup(r, prev, c.marker.value);
    }
    hide ByPath, ByMarker, FirstWith, Lists, RegistryInv;
  }

  /** Up to the k-th tree the second pass is over. */
  ghost function Halfway(d: seq<Option<Id>>, h: seq<Option<Id>>, k: nat): (m: seq<Option<Id>>)
    requires k <= |d| == |h|
    ensures |m| == |d|
  {
    h[..k] + d[k..]
  }

  lemma HalfwayHeld(d: seq<Option<Id>>, h: seq<Option<Id>>, k: nat)
    requires k <= |d| == |h| && forall j :: 0 <= j < |d| && d[j].Some? ==> h[j] == d[j]
    ensures Held(Halfway(d, h, k), |d|) == Held(d, |d|) + Held(h, k)
  {
    var m := Halfway(d, h, k);
    forall id | id in Held(d, |d|) + Held(h, k)
      ensures id in Held(m, |d|)
    {
      if id in Held(d, |d|) {
        var j :| 0 <= j < |d| && d[j] == Some(id);
        assert m[j] == Some(id);
      } else {
        var j :| 0 <= j < k && h[j] == Some(id);
        assert m[j] == Some(id);
      }
    }
    forall id | id in Held(m, |d|)
      ensures id in Held(d, |d|) + Held(h, k)
    {
      var j :| 0 <= j < |d| && m[j] == Some(id);
      assert j < k ==> h[j] == Some(id);
      assert j >= k ==> d[j] == Some(id);
    }
  }

  lemma HeldPut(ids: seq<Option<Id>>, k: nat, id: Id)
    requires k < |ids| && ids[k].None?
    ensures Held(ids[k := Some(id)], |ids|) == Held(ids, |ids|) + {id}
  {
    var m := ids[k := Some(id)];
    forall x | x in Held(ids, |ids|) + {id}
      ensures x in Held(m, |ids|)
    {
      if x == id {
        assert m[k] == Some(x);
      } else {
        var j :| 0 <= j < |ids| && ids[j] == Some(x);
        assert m[j] == Some(x);
      }
    }
  }

  lemma ReflectsPut(r: Registry, cs: seq<Candidate>, m: seq<Option<Id>>, k: nat, claims: Claims, id: Id, identity: Identity)
    requires Distinct(cs) && k < |cs| == |m| && Reflects(r, cs, m, |cs|, claims) && m[k].None?
    requires id !in claims.claimed && Some(identity) == Written(r, cs[k], id).identity
    ensures Reflects(r, cs, m[k := Some(id)], |cs|, Claim(claims, cs[k].path, id, identity))
  {
    hide Held, Written;
    HeldPut(m, k, id);
    var t := Claim(claims, cs[k].path, id, identity);
    forall p | p in t.matched
      ensures exists j :: 0 <= j < |cs| && cs[j].path == p
    {
      if p == cs[k].path {
        assert cs[k].path == p;
      } else {
        var j :| 0 <= j < |cs| && cs[j].path == p;
      }
    }
  }

  lemma ReflectsOneMove(
    r: Registry, cs: seq<Candidate>, d: seq<Option<Id>>, h: seq<Option<Id>>, k: nat, claims: Claims, identity: Identity)
    requires Distinct(cs) && k < |cs| == |d| == |h| && Reflects(r, cs, Halfway(d, h, k), |cs|, claims)
    requires d[k].Some? ==> h[k] == d[k]
    requires d[k].None? && h[k].Some? ==>
      h[k].value !in claims.claimed && Some(identity) == Written(r, cs[k], h[k].value).identity
    ensures Reflects(r, cs, Halfway(d, h, k + 1), |cs|,
      if d[k].None? && h[k].Some? then Claim(claims, cs[k].path, h[k].value, identity) else claims)
  {
    hide Reflects, Written, Distinct;
    var m := Halfway(d, h, k);
    assert m[k] == d[k] && Halfway(d, h, k + 1) == m[k := h[k]];
    if d[k].None? && h[k].Some? {
      ReflectsPut(r, cs, m, k, claims, h[k].value, identity);
    } else {
      assert Halfway(d, h, k + 1) == m;
    }
  }

  ghost predicate InVain(r: Registry, cs: seq<Candidate>, d: seq<Option<Id>>, j: nat)
    requires j < |cs| == |d|
  {
    cs[j].identity.None? && d[j].None? && cs[j].isRepo && KnownTo(r, cs[j])
  }

  /** The second pass infers just the moves, and raises at a known tree whose history Git cannot give. */
  lemma {:induction false} SecondPassExactly(
    r: Registry, prev: Listing, s: Scan, cs: seq<Candidate>, d: seq<Option<Id>>, h: seq<Option<Id>>, first: Claims, k: nat)
    requires Lists(prev, r.repos) && RegistryInv(r) && Distinct(cs) && k <= |cs| == |d|
    requires Reflects(r, cs, d, |cs|, first) && Moved(r, s, cs, d, Held(d, |d|), h)
    requires forall c :: c in cs && c.identity.Some? ==> c.isRepo
    ensures var t := SecondPass(prev, s.Available(), cs[..k], first);
      && (t.Err? <==> exists j :: 0 <= j < k && InVain(r, cs, d, j))
      && (t.Ok? ==> Reflects(r, cs, Halfway(d, h, k), |cs|, t.value))
  {
    if k == 0 {
      assert Halfway(d, h, 0) == d;
    } else {
      SecondPassExactly(r, prev, s, cs, d, h, first, k - 1);
      hide Held, KnownTo, Known, RegistryInv, Lists, Halfway, Distinct, Moved, Reflects, InVain, ByHistory;
      assert cs[..k][..k - 1] == cs[..k - 1] && cs[..k][k - 1] == cs[k - 1];
      var t := SecondPass(prev, s.Available(), cs[..k - 1], first);
      if t.Ok? {
        SecondPassStep(r, prev, s, cs, d, h, t.value, k - 1);
      }
    }
  }

  lemma SecondPassStep(
    r: Registry, prev: Listing, s: Scan, cs: seq<Candidate>, d: seq<Option<Id>>, h: seq<Option<Id>>, claims: Claims, k: nat)
    requires Lists(prev, r.repos) && RegistryInv(r) && Distinct(cs) && k < |cs| == |d|
    requires Moved(r, s, cs, d, Held(d, |d|), h) && Reflects(r, cs, Halfway(d, h, k), |cs|, claims)
    requires cs[k].identity.Some? ==> cs[k].isRepo
    ensures var t := ByHistory(prev, s.Available(), claims, cs[k]);
      && (t.Err? <==> InVain(r, cs, d, k))
      && (t.Ok? ==> Reflects(r, cs, Halfway(d, h, k + 1), |cs|, t.value))
  {
    var c := cs[k];
    var direct := Held(d, |d|);
    KnownExactly(r, prev, c);
    HalfwayHeld(d, h, k);
    assert Halfway(d, h, k)[k] == d[k];
    if d[k].None? && c.identity.Some? {
      var ids := Movable(prev, c.identity.value, claims.claimed, s.Available());
      MovableExactly(r, prev, s, c, claims.claimed);
      OneIsAlone(r, s, c, claims.claimed, ids);
      hide Movable, Held, KnownTo, Known, RegistryInv, Lists, Halfway, Distinct;
      if |ids| == 1 {
        assert h[k] == Some(ids[0]);
      } else {
        GivesNone(h[k]);
      }
      ReflectsOneMove(r, cs, d, h, k, claims, c.identity.value);
    } else {
      hide Movable, Held, KnownTo, Known, RegistryInv, Lists, Halfway, Distinct;
      if d[k].None? {
        assert forall id :: !AloneFits(r, s, cs[k], id, direct + Held(h, k));
        GivesNone(h[k]);
      }
      ReflectsOneMove(r, cs, d, h, k, claims, 0);
    }
  }

  // ---------------------------------------------------------------- names

  lemma {:induction false} FirstFreeIsLeast(stem: Id, n: nat, unavailable: set<Id>)
    ensures exists m: nat :: m >= n && Least(stem, n, m, unavailable, FirstFree(stem, n, unavailable))
    decreases |unavailable - Tried(stem, n)|
  {
    hide Tried;
    if Suffixed(stem, n) in unavailable {
      CounterProgress(stem, n, unavailable);
      FirstFreeIsLeast(stem, n + 1, unavailable);
      var m: nat :| m >= n + 1 && Least(stem, n + 1, m, unavailable, FirstFree(stem, n + 1, unavailable));
      assert Least(stem, n, m, unavailable, FirstFree(stem, n, unavailable));
    } else {
      assert Least(stem, n, n, unavailable, FirstFree(stem, n, unavailable));
    }
  }

  lemma FreshIdIsFirst(c: Candidate, unavailable: set<Id>)
    ensures FirstName(c, FreshId(c, unavailable), unavailable)
  {
    hide Suffixed, FirstFree;
    FirstFreeIsLeast(c.slug + "-" + c.fingerprint, 2, unavailable);
  }

  ghost function NameIds(cs: seq<Candidate>, h: seq<Option<Id>>, taken: set<Id>): (n: seq<Option<Id>>)
    requires |h| == |cs|
    ensures |n| == |cs|
    decreases |cs|
  {
    if cs == [] then []
    else
      var k := |cs| - 1;
      var n := NameIds(cs[..k], h[..k], taken);
      n + [if h[k].Some? then h[k] else if cs[k].identity.None? then None else Some(FreshId(cs[k], taken + Held(n, k)))]
  }

  lemma {:induction false} NameIdsExactly(r: Registry, s: Scan, cs: seq<Candidate>, h: seq<Option<Id>>)
    requires |h| == |cs|
    ensures Named(r, s, cs, h, NameIds(cs, h, r.repos.Keys + r.retired + s.reserved))
    decreases |cs|
  {
    if cs != [] {
      var taken := r.repos.Keys + r.retired + s.reserved;
      var k := |cs| - 1;
      NameIdsExactly(r, s, cs[..k], h[..k]);
      var n := NameIds(cs[..k], h[..k], taken);
      var all := NameIds(cs, h, taken);
      assert all[..k] == n;
      FreshIdIsFirst(cs[k], taken + Held(n, k));
      hide FirstName, FreshId, Held;
      forall j | 0 <= j < |cs|
        ensures h[j].Some? ==> all[j] == h[j]
        ensures h[j].None? && cs[j].identity.None? ==> all[j] == None
        ensures h[j].None? && cs[j].identity.Some? ==> all[j].Some? && FirstName(cs[j], all[j].value, Unavailable(r, s, all, j))
      {
        HeldMore(n, all, j);
        if j < k {
          assert cs[j] == cs[..k][j] && all[j] == n[j] && h[j] == h[..k][j];
        }
      }
    }
  }

  /** The fresh entries are those of the trees without an old ID, each under its name. */
  ghost predicate Adds(
    cs: seq<Candidate>, h: seq<Option<Id>>, n: seq<Option<Id>>, k: nat, taken: set<Id>, a: map<Id, Entry>)
    requires k <= |cs| == |h| == |n|
  {
    && (forall j :: 0 <= j < k && h[j].None? && n[j].Some? ==>
      cs[j].identity.Some? && n[j].value in a && a[n[j].value] == Record(cs[j], cs[j].identity.value))
    && a.Keys <= Held(n, k) && taken + a.Keys == taken + Held(n, k)
  }

  lemma {:induction false} AddsExactly(
    r: Registry, cs: seq<Candidate>, h: seq<Option<Id>>, taken: set<Id>, claims: Claims, k: nat)
    requires k <= |cs| == |h| && Reflects(r, cs, h, |cs|, claims) && Held(h, |h|) <= taken
    requires forall c :: c in cs && c.identity.Some? ==> c.isRepo
    ensures Adds(cs, h, NameIds(cs, h, taken), k, taken, Added(cs[..k], claims, taken))
  {
    if k > 0 {
      AddsExactly(r, cs, h, taken, claims, k - 1);
      hide Held, FreshId, Reflects, Adds, Joins, Record;
      assert cs[..k][..k - 1] == cs[..k - 1] && cs[..k][k - 1] == cs[k - 1];
      NameIdsStep(cs, h, taken, k - 1);
      AddsStep(r, cs, h, NameIds(cs, h, taken), taken, claims, k - 1, Added(cs[..k - 1], claims, taken));
    }
  }

  lemma {:induction false} NameIdsStep(cs: seq<Candidate>, h: seq<Option<Id>>, taken: set<Id>, k: nat)
    requires k < |cs| == |h|
    ensures var n := NameIds(cs, h, taken);
      n[k] == if h[k].Some? then h[k] else if cs[k].identity.None? then None else Some(FreshId(cs[k], taken + Held(n, k)))
    decreases |cs|
  {
    hide FreshId, Held;
    var m := |cs| - 1;
    var n := NameIds(cs, h, taken);
    var rest := NameIds(cs[..m], h[..m], taken);
    assert n[..m] == rest;
    HeldMore(rest, n, k);
    if k < m {
      NameIdsStep(cs[..m], h[..m], taken, k);
      assert n[k] == rest[k];
    }
  }

  lemma JoinsExactly(r: Registry, cs: seq<Candidate>, h: seq<Option<Id>>, claims: Claims, k: nat)
    requires k < |cs| == |h| && Reflects(r, cs, h, |cs|, claims) && (cs[k].identity.Some? ==> cs[k].isRepo)
    ensures Joins(claims, cs[k]) <==> h[k].None? && cs[k].identity.Some?
    ensures h[k].Some? ==> h[k].value in Held(h, |h|)
  {
  }

  lemma AddsOne(
    cs: seq<Candidate>, h: seq<Option<Id>>, n: seq<Option<Id>>, taken: set<Id>, k: nat, a: map<Id, Entry>, id: Id)
    requires k < |cs| == |h| == |n| && Adds(cs, h, n, k, taken, a)
    requires h[k].None? && cs[k].identity.Some? && n[k] == Some(id) && id !in taken + a.Keys
    ensures Adds(cs, h, n, k + 1, taken, a[id := Record(cs[k], cs[k].identity.value)])
  {
    HeldOneMore(n, k);
    hide Held, Record;
    var b := a[id := Record(cs[k], cs[k].identity.value)];
    assert b.Keys == a.Keys + {id};
    assert forall j :: 0 <= j < k && h[j].None? && n[j].Some? ==> n[j].value in a;
  }

  lemma AddsNone(
    cs: seq<Candidate>, h: seq<Option<Id>>, n: seq<Option<Id>>, taken: set<Id>, k: nat, a: map<Id, Entry>)
    requires k < |cs| == |h| == |n| && Adds(cs, h, n, k, taken, a)
    requires n[k] == h[k] && (h[k].Some? ==> h[k].value in taken)
    ensures Adds(cs, h, n, k + 1, taken, a)
  {
    HeldOneMore(n, k);
    hide Held, Record;
    assert taken + Held(n, k + 1) == taken + Held(n, k);
  }

  lemma AddsStep(
    r: Registry, cs: seq<Candidate>, h: seq<Option<Id>>, n: seq<Option<Id>>, taken: set<Id>, claims: Claims, k: nat,
    a: map<Id, Entry>)
    requires k < |cs| == |h| == |n| && Reflects(r, cs, h, |cs|, claims) && Held(h, |h|) <= taken
    requires Adds(cs, h, n, k, taken, a) && (cs[k].identity.Some? ==> cs[k].isRepo)
    requires n[k] == if h[k].Some? then h[k] else if cs[k].identity.None? then None else Some(FreshId(cs[k], taken + Held(n, k)))
    ensures Adds(cs, h, n, k + 1, taken,
      if Joins(claims, cs[k]) then a[FreshId(cs[k], taken + a.Keys) := Record(cs[k], cs[k].identity.value)] else a)
  {
    hide Held, FreshId, Reflects, Adds, Joins, Record;
    assert taken + a.Keys == taken + Held(n, k) by {
      AddsKeys(cs, h, n, k, taken, a);
    }
    JoinsExactly(r, cs, h, claims, k);
    if Joins(claims, cs[k]) {
      AddsOne(cs, h, n, taken, k, a, FreshId(cs[k], taken + a.Keys));
    } else {
      AddsNone(cs, h, n, taken, k, a);
    }
  }

  lemma AddsKeys(
    cs: seq<Candidate>, h: seq<Option<Id>>, n: seq<Option<Id>>, k: nat, taken: set<Id>, a: map<Id, Entry>)
    requires k <= |cs| == |h| == |n| && Adds(cs, h, n, k, taken, a)
    ensures taken + a.Keys == taken + Held(n, k)
  {
  }

  // ---------------------------------------------------------------- the new registry

  lemma AwayIsOffline(cheap: bool, e: Entry, s: Scan)
    ensures Away(cheap, e, s) <==> Offline(cheap, e, s)
  {
    BeneathIsUnder(e.path, s);
  }

  ghost predicate KeepsAway(cheap: bool, r: Registry, s: Scan, taken: set<Id>, kept: map<Id, Entry>, removed: set<Id>) {
    && (forall id :: id in kept <==> id in r.repos && id !in taken && Away(cheap, r.repos[id], s))
    && (forall id :: id in kept && id in r.repos ==> kept[id] == r.repos[id])
    && (forall id :: id in removed <==> id in r.repos && id !in taken && !Away(cheap, r.repos[id], s))
  }

  lemma KeepsExactly(cheap: bool, r: Registry, prev: Listing, s: Scan, taken: set<Id>)
    requires Lists(prev, r.repos)
    ensures KeepsAway(cheap, r, s, taken, Preserved(cheap, prev, taken, s), Removed(cheap, prev, taken, s))
  {
    PreservedExactly(cheap, prev, taken, s);
    RemovedExactly(cheap, prev, taken, s);
    hide Offline, Away, Preserved, Removed;
    forall id | id in r.repos
      ensures Away(cheap, r.repos[id], s) <==> Offline(cheap, r.repos[id], s)
      ensures (id, r.repos[id]) in prev
    {
      AwayIsOffline(cheap, r.repos[id], s);
    }
    assert forall id :: id in r.repos ==> (Lost(cheap, prev, id, s) <==> !Offline(cheap, r.repos[id], s));
    assert forall id :: Lost(cheap, prev, id, s) ==> id in r.repos;
  }

  ghost predicate Writes(r: Registry, cs: seq<Candidate>, h: seq<Option<Id>>, m: map<Id, Entry>)
    requires |h| == |cs|
  {
    && m.Keys == Held(h, |h|) && m.Keys <= r.repos.Keys
    && forall k :: 0 <= k < |cs| && h[k].Some? ==> h[k].value in m && m[h[k].value] == Written(r, cs[k], h[k].value)
  }

  lemma WritesExactly(r: Registry, prev: Listing, cs: seq<Candidate>, h: seq<Option<Id>>, claims: Claims)
    requires |h| == |cs| && Lists(prev, r.repos) && Distinct(cs)
    requires ClaimsOk(prev, cs, claims) && Reflects(r, cs, h, |cs|, claims)
    ensures Writes(r, cs, h, Matched(cs, claims))
  {
    var m := Matched(cs, claims);
    MatchedExactly(cs, claims);
    MatchedWereLive(prev, r, cs, claims);
    ClaimedAreMatched(prev, cs, claims);
    hide Matched, Held, Lists;
    forall k | 0 <= k < |cs| && h[k].Some?
      ensures h[k].value in m && m[h[k].value] == Written(r, cs[k], h[k].value)
    {
      assert cs[k] in cs;
      var id := h[k].value;
      assert WrittenFor(cs, claims, id, m[id]);
      var c :| c in cs && RegistryScans.Writes(claims, c, id, m[id]);
      assert c.path == cs[k].path;
      assert c == cs[k];
    }
  }

  lemma BecomesExactly(
    cheap: bool, r: Registry, s: Scan, cs: seq<Candidate>, h: seq<Option<Id>>, n: seq<Option<Id>>,
    kept: map<Id, Entry>, removed: set<Id>, matched: map<Id, Entry>, added: map<Id, Entry>)
    requires |h| == |n| == |cs| && RegistryInv(r) && Named(r, s, cs, h, n)
    requires KeepsAway(cheap, r, s, Held(h, |h|), kept, removed) && Writes(r, cs, h, matched)
    requires Adds(cs, h, n, |cs|, r.repos.Keys + r.retired + s.reserved, added)
    requires added.Keys !! r.repos.Keys + r.retired + s.reserved
    ensures Becomes(cheap, r, s, cs, h, n,
      Registry(kept + matched + added, r.retired + removed - (kept + matched + added).Keys))
  {
    hide Held, Away, FirstName, Written;
    var repos := kept + matched + added;
    forall k | 0 <= k < |cs| && n[k].Some?
      ensures n[k].value in repos && repos[n[k].value] == Written(r, cs[k], n[k].value)
    {
      if h[k].None? {
        NewIsOwn(r, cs[k], n[k].value);
      }
    }
    HeldNames(cs, h, n);
  }

  lemma NewIsOwn(r: Registry, c: Candidate, id: Id)
    requires id !in r.repos && c.identity.Some?
    ensures Written(r, c, id) == Record(c, c.identity.value)
  {
  }

  lemma HeldNames(cs: seq<Candidate>, h: seq<Option<Id>>, n: seq<Option<Id>>)
    requires |h| == |n| && forall k :: 0 <= k < |h| && h[k].Some? ==> n[k] == h[k]
    ensures Held(h, |h|) <= Held(n, |n|)
  {
  }

  lemma AssembleExactly(
    cheap: bool, r: Registry, prev: Listing, s: Scan, cs: seq<Candidate>, h: seq<Option<Id>>, claims: Claims)
    requires Lists(prev, r.repos) && RegistryInv(r) && Distinct(cs) && |h| == |cs|
    requires ClaimsOk(prev, cs, claims) && Reflects(r, cs, h, |cs|, claims)
    requires forall c :: c in cs && c.identity.Some? ==> c.isRepo
    ensures var n := NameIds(cs, h, r.repos.Keys + r.retired + s.reserved);
      Becomes(cheap, r, s, cs, h, n, Assemble(cheap, prev, r.retired, s, cs, claims))
  {
    var taken := r.repos.Keys + r.retired + s.reserved;
    var n := NameIds(cs, h, taken);
    var kept := Preserved(cheap, prev, claims.claimed, s);
    var removed := Removed(cheap, prev, claims.claimed, s);
    var matched := Matched(cs, claims);
    KeepsExactly(cheap, r, prev, s, claims.claimed);
    WritesExactly(r, prev, cs, h, claims);
    NameIdsExactly(r, s, cs, h);
    assert claims.claimed == Held(h, |h|);
    hide Preserved, Removed, Matched, Added, Held, Away, Written, Reflects, ClaimsOk, Lists, RegistryInv, Named, Adds, Becomes, Distinct;
    assert kept.Keys + matched.Keys + removed == r.repos.Keys;
    assert kept.Keys + matched.Keys + (r.retired + removed) + s.reserved == taken;
    AddsExactly(r, cs, h, taken, claims, |cs|);
    assert cs[..|cs|] == cs;
    BecomesExactly(cheap, r, s, cs, h, n, kept, removed, matched, Added(cs, claims, taken));
  }

  lemma {:induction false} RecordsExactly(r: Registry, prev: Listing, cs: seq<Candidate>)
    requires Lists(prev, r.repos) && RegistryInv(r)
    ensures var t := Records(prev, cs);
      && (t.Err? <==> exists c :: c in cs && c.identity.None? && KnownTo(r, c))
      && (t.Ok? ==> t.value == WithHistory(cs))
  {
    if cs != [] {
      var rest := cs[..|cs| - 1];
      var c := cs[|cs| - 1];
      RecordsExactly(r, prev, rest);
      KnownExactly(r, prev, c);
      hide KnownTo, Known, Lists, RegistryInv;
      assert forall x :: x in cs <==> x in rest || x == c;
    }
  }

  lemma {:induction false} WithHistoryKeepsOrder(cs: seq<Candidate>)
    requires Distinct(cs)
    ensures Distinct(WithHistory(cs))
  {
    if cs != [] {
      var rest := cs[..|cs| - 1];
      WithHistoryKeepsOrder(rest);
      assert forall c :: c in rest ==> c.path != cs[|cs| - 1].path;
    }
  }

  lemma TreesExactly(cheap: bool, s: Scan)
    requires Discovered(s)
    ensures var cs := Trees(cheap, s);
      && Distinct(cs) && (cheap || AllIdentified(cs)) && forall c :: c in cs && c.identity.Some? ==> c.isRepo
  {
    CandidatesAreTrees(cheap, s);
    hide Discovered, Candidates;
    WithHistoryKeepsOrder(Candidates(cheap, s));
  }

  /** Binding the trees: it raises where a question is in vain, and else binds them as told. */
  lemma BindsExactly(
    cheap: bool, r: Registry, prev: Listing, s: Scan, cs: seq<Candidate>, d: seq<Option<Id>>, h: seq<Option<Id>>)
    requires Lists(prev, r.repos) && RegistryInv(r) && Distinct(cs) && (cheap || AllIdentified(cs))
    requires forall c :: c in cs && c.identity.Some? ==> c.isRepo
    requires Directly(cheap, r, prev, cs, d) && Moved(r, s, cs, d, Held(d, |d|), h)
    ensures var t := Bound(cheap, prev, s, cs);
      && (t.Err? <==> cheap && exists k :: 0 <= k < |cs| && AsksInVain(r, prev, cs, d, k))
      && (t.Ok? ==> ClaimsOk(prev, cs, t.value) && Reflects(r, cs, h, |cs|, t.value))
  {
    FirstPassExactly(cheap, r, prev, cs, d, |cs|);
    assert cs[..|cs|] == cs;
    var f := FirstPass(cheap, prev, cs);
    if f.Ok? {
      SecondPassExactly(r, prev, s, cs, d, h, f.value, |cs|);
      assert Halfway(d, h, |cs|) == h;
    }
    if Bound(cheap, prev, s, cs).Ok? {
      BoundOk(cheap, prev, s, cs);
    }
    hide FirstPass, SecondPass, ClaimsOk, Reflects, Held, MustAsk, KnownTo, Lists, RegistryInv, Directly, Moved, Distinct;
    if exists k :: 0 <= k < |cs| && AsksInVain(r, prev, cs, d, k) {
      var k :| 0 <= k < |cs| && AsksInVain(r, prev, cs, d, k);
      assert InVain(r, cs, d, k) || MustAsk(r, prev, cs[k], Held(d, k));
    } else if f.Ok? && exists k :: 0 <= k < |cs| && InVain(r, cs, d, k) {
      var k :| 0 <= k < |cs| && InVain(r, cs, d, k);
      assert AsksInVain(r, prev, cs, d, k);
    } else if f.Err? {
      var k :| 0 <= k < |cs| && cs[k].identity.None? && MustAsk(r, prev, cs[k], Held(d, k));
      assert AsksInVain(r, prev, cs, d, k);
    }
  }

  lemma UnreadableExactly(cheap: bool, r: Registry, cs: seq<Candidate>, h: seq<Option<Id>>, claims: Claims)
    requires |h| == |cs| && Reflects(r, cs, h, |cs|, claims)
    requires forall c :: c in cs && c.identity.Some? ==> c.isRepo
    ensures Unreadable(cheap, cs, claims) <==>
      exists k :: 0 <= k < |cs| && !cs[k].readable && (cheap ==> h[k].None? && cs[k].identity.Some?)
  {
    forall k | 0 <= k < |cs|
      ensures Joins(claims, cs[k]) <==> h[k].None? && cs[k].identity.Some?
    {
      JoinsExactly(r, cs, h, claims, k);
    }
    hide Joins, Reflects;
    if Unreadable(cheap, cs, claims) {
      var c :| c in cs && !c.readable && (cheap ==> Joins(claims, c));
      var k :| 0 <= k < |cs| && cs[k] == c;
      assert !cs[k].readable;
    }
  }

  /** The scan after its trees are found: what it binds decides whether it raises and what it returns. */
  lemma ScanFollows(
    cheap: bool, r: Registry, prev: Listing, s: Scan, cs: seq<Candidate>, d: seq<Option<Id>>, h: seq<Option<Id>>)
    requires Lists(prev, r.repos) && RegistryInv(r) && Distinct(cs) && (cheap || AllIdentified(cs))
    requires forall c :: c in cs && c.identity.Some? ==> c.isRepo
    requires Directly(cheap, r, prev, cs, d) && Moved(r, s, cs, d, Held(d, |d|), h) && |h| == |cs|
    requires ScanRecords(cheap, prev, s) == Ok(cs)
    ensures var t := Reconcile(cheap, prev, r.retired, s);
      && (t.Err? <==>
        || (cheap && exists k :: 0 <= k < |cs| && AsksInVain(r, prev, cs, d, k))
        || (exists k :: 0 <= k < |cs| && !cs[k].readable && (cheap ==> h[k].None? && cs[k].identity.Some?)))
      && (t.Ok? ==> Becomes(cheap, r, s, cs, h, NameIds(cs, h, r.repos.Keys + r.retired + s.reserved), t.value))
  {
    hide Bound, Assemble, Records, Unreadable, Directly, Moved, Named, Becomes, Reflects, ClaimsOk, Held, Lists, RegistryInv,
      Distinct, AsksInVain, NameIds, ScanRecords;
    BindsExactly(cheap, r, prev, s, cs, d, h);
    var b := Bound(cheap, prev, s, cs);
    if b.Ok? {
      UnreadableExactly(cheap, r, cs, h, b.value);
      AssembleExactly(cheap, r, prev, s, cs, h, b.value);
    }
  }

  lemma RaisesExactly(
    cheap: bool, r: Registry, prev: Listing, s: Scan, cs: seq<Candidate>, d: seq<Option<Id>>, h: seq<Option<Id>>)
    requires Lists(prev, r.repos) && RegistryInv(r) && Discovered(s) && cs == Trees(cheap, s)
    requires Directly(cheap, r, prev, cs, d) && Moved(r, s, cs, d, Held(d, |d|), h) && |h| == |cs|
    ensures var t := Reconcile(cheap, prev, r.retired, s);
      && (t.Err? <==> Raises(cheap, r, prev, s, cs, d, h))
      && (t.Ok? ==> Becomes(cheap, r, s, cs, h, NameIds(cs, h, r.repos.Keys + r.retired + s.reserved), t.value))
  {
    hide Discovered, Candidates, Lists, RegistryInv, Bound, Records, Directly, Moved, Becomes, Held, Distinct, KnownTo,
      AsksInVain, WithHistory, NameIds, Assemble, Unreadable;
    TreesExactly(cheap, s);
    RecordsExactly(r, prev, Candidates(false, s));
    if cheap || Records(prev, Candidates(false, s)).Ok? {
      ScanFollows(cheap, r, prev, s, cs, d, h);
    }
  }

  /** Either scan, over any registry that scans keep, gives this answer and raises exactly then. */
  lemma ScanAnswers(cheap: bool, r: Registry, prev: Listing, s: Scan)
    requires Lists(prev, r.repos) && RegistryInv(r) && Discovered(s)
    ensures exists d, h, n :: Answers(cheap, r, prev, s, d, h, n, Reconcile(cheap, prev, r.retired, s))
  {
    assert Keyed(prev);
    hide Discovered, Trees, Lists, RegistryInv, Reconcile, Keyed, Directly, Moved, Named, Becomes, Raises, Held;
    var cs := Trees(cheap, s);
    var d := DirectIds(cheap, r, prev, cs);
    DirectIdsExactly(cheap, r, prev, cs);
    var direct := Held(d, |d|);
    var h := MoveIds(r, s, cs, d, direct);
    MoveIdsExactly(r, s, cs, d, direct);
    NameIdsExactly(r, s, cs, h);
    RaisesExactly(cheap, r, prev, s, cs, d, h);
    var n := NameIds(cs, h, r.repos.Keys + r.retired + s.reserved);
    assert Answers(cheap, r, prev, s, d, h, n, Reconcile(cheap, prev, r.retired, s));
  }

  /**
  A tree that no direct rule binds is written under an old ID if and only if exactly one old entry, unclaimed at
  its turn, fits it, and then under that entry's ID.  Otherwise it gets a new ID, and the entries that fit it are
  retired unless a later tree takes them.
  */
  lemma MoveNeedsExactlyOne(
    cheap: bool, r: Registry, prev: Listing, s: Scan, d: seq<Option<Id>>, h: seq<Option<Id>>, n: seq<Option<Id>>, k: nat)
    requires Lists(prev, r.repos) && RegistryInv(r) && Discovered(s) && Reconcile(cheap, prev, r.retired, s).Ok?
    requires Answers(cheap, r, prev, s, d, h, n, Reconcile(cheap, prev, r.retired, s))
    requires k < |Trees(cheap, s)| && d[k].None? && Trees(cheap, s)[k].identity.Some?
    ensures var t := Reconcile(cheap, prev, r.retired, s).value;
      var c := Trees(cheap, s)[k];
      var taken := Held(d, |d|) + Held(h, k);
      && (forall id :: id in r.repos && id in t.repos && t.repos[id].path == Some(c.path) <==> AloneFits(r, s, c, id, taken))
      && ((forall id :: !AloneFits(r, s, c, id, taken)) ==>
        n[k].Some? && n[k].value !in r.repos && n[k].value !in r.retired && n[k].value in t.repos
        && t.repos[n[k].value].path == Some(c.path))
      && (forall id :: Fits(r, s, c, id, taken) && id !in Held(h, |h|) ==> id in t.retired && id !in t.repos)
  {
    ScanKeepsInv(cheap, prev, r, s);
    var t := Reconcile(cheap, prev, r.retired, s).value;
    var cs := Trees(cheap, s);
    hide Lists, Discovered, Reconcile, Held, Trees, Beneath, Directly, Raises, Named, Moved, Becomes, RegistryInv;
    TurnExactly(r, s, cs, d, h, n, k);
    WrittenAt(cheap, r, s, cs, h, n, t, k);
    FittingIsRetired(cheap, r, s, cs, h, n, t, cs[k], Held(d, |d|) + Held(h, k));
    hide Fits;
  }

  lemma TurnExactly(
    r: Registry, s: Scan, cs: seq<Candidate>, d: seq<Option<Id>>, h: seq<Option<Id>>, n: seq<Option<Id>>, k: nat)
    requires |d| == |h| == |n| == |cs| && k < |cs| && d[k].None? && cs[k].identity.Some?
    requires Moved(r, s, cs, d, Held(d, |d|), h) && Named(r, s, cs, h, n)
    ensures n[k].Some?
    ensures forall id :: AloneFits(r, s, cs[k], id, Held(d, |d|) + Held(h, k)) <==> id in r.repos && n[k] == Some(id)
    ensures h[k].None? ==> n[k].value !in r.repos && n[k].value !in r.retired
  {
    hide Held, Beneath, FirstName;
    if h[k].None? {
      FirstNameIsNew(cs[k], n[k].value, Unavailable(r, s, n, k));
    }
  }

  lemma WrittenAt(
    cheap: bool, r: Registry, s: Scan, cs: seq<Candidate>, h: seq<Option<Id>>, n: seq<Option<Id>>, t: Registry, k: nat)
    requires |h| == |n| == |cs| && k < |cs| && n[k].Some? && Becomes(cheap, r, s, cs, h, n, t) && RegistryInv(t)
    ensures n[k].value in t.repos
    ensures forall id :: id in t.repos && t.repos[id].path == Some(cs[k].path) <==> id == n[k].value
  {
    hide Held, Away;
    assert t.repos[n[k].value].path == Some(cs[k].path);
  }

  lemma FittingIsRetired(
    cheap: bool, r: Registry, s: Scan, cs: seq<Candidate>, h: seq<Option<Id>>, n: seq<Option<Id>>, t: Registry,
    c: Candidate, taken: set<Id>)
    requires |h| == |n| == |cs| && Becomes(cheap, r, s, cs, h, n, t)
    ensures forall id :: Fits(r, s, c, id, taken) && id !in Held(h, |h|) ==> id in t.retired && id !in t.repos
  {
    hide Held, Written, Beneath;
  }

  lemma FirstNameIsNew(c: Candidate, id: Id, unavailable: set<Id>)
    requires FirstName(c, id, unavailable)
    ensures id !in unavailable
  {
  }

  // ---------------------------------------------------------------- the answer is determined

  lemma {:induction false} SameDirects(
    cheap: bool, r: Registry, prev: Listing, cs: seq<Candidate>, d: seq<Option<Id>>, e: seq<Option<Id>>, k: nat)
    requires Directly(cheap, r, prev, cs, d) && Directly(cheap, r, prev, cs, e) && k <= |cs|
    ensures d[..k] == e[..k]
  {
    if k > 0 {
      SameDirects(cheap, r, prev, cs, d, e, k - 1);
      hide Held, Direct;
      SameHeld(d, e, k - 1);
      SameOption(d[k - 1], e[k - 1]);
    }
  }

  lemma SameHeld(d: seq<Option<Id>>, e: seq<Option<Id>>, k: nat)
    requires k <= |d| == |e| && d[..k] == e[..k]
    ensures Held(d, k) == Held(e, k)
  {
    HeldMore(d[..k], d, k);
    HeldMore(e[..k], e, k);
  }

  lemma SameOption(a: Option<Id>, b: Option<Id>)
    requires forall id :: a == Some(id) <==> b == Some(id)
    ensures a == b
  {
    match a
    case None => GivesNone(b);
    case Some(id) =>
  }

  lemma {:induction false} SameMoves(
    r: Registry, s: Scan, cs: seq<Candidate>, d: seq<Option<Id>>, direct: set<Id>, h: seq<Option<Id>>, g: seq<Option<Id>>,
    k: nat)
    requires |d| == |cs| && Moved(r, s, cs, d, direct, h) && Moved(r, s, cs, d, direct, g) && k <= |cs|
    ensures h[..k] == g[..k]
  {
    if k > 0 {
      SameMoves(r, s, cs, d, direct, h, g, k - 1);
      hide Held, AloneFits;
      SameHeld(h, g, k - 1);
      if d[k - 1].None? {
        SameOption(h[k - 1], g[k - 1]);
      }
    }
  }

  lemma SameName(c: Candidate, unavailable: set<Id>, a: Id, b: Id)
    requires FirstName(c, a, unavailable) && FirstName(c, b, unavailable)
    ensures a == b
  {
    hide Decimal;
    var stem := c.slug + "-" + c.fingerprint;
    if c.slug in unavailable && stem in unavailable {
      var m: nat :| m >= 2 && Least(stem, 2, m, unavailable, a);
      var n: nat :| n >= 2 && Least(stem, 2, n, unavailable, b);
      assert m == n;
    }
  }

  lemma SameUnavailable(r: Registry, s: Scan, n: seq<Option<Id>>, m: seq<Option<Id>>, k: nat)
    requires k <= |n| == |m| && n[..k] == m[..k]
    ensures Unavailable(r, s, n, k) == Unavailable(r, s, m, k)
  {
    SameHeld(n, m, k);
  }

  lemma SameNameAt(
    r: Registry, s: Scan, cs: seq<Candidate>, h: seq<Option<Id>>, n: seq<Option<Id>>, m: seq<Option<Id>>, k: nat)
    requires k < |h| == |cs| && Named(r, s, cs, h, n) && Named(r, s, cs, h, m) && n[..k] == m[..k]
    ensures n[k] == m[k]
  {
    hide Held, FirstName, Unavailable;
    SameUnavailable(r, s, n, m, k);
    if h[k].None? && cs[k].identity.Some? {
      SameName(cs[k], Unavailable(r, s, n, k), n[k].value, m[k].value);
    }
  }

  lemma {:induction false} SameNames(
    r: Registry, s: Scan, cs: seq<Candidate>, h: seq<Option<Id>>, n: seq<Option<Id>>, m: seq<Option<Id>>, k: nat)
    requires |h| == |n| == |m| == |cs| && Named(r, s, cs, h, n) && Named(r, s, cs, h, m) && k <= |cs|
    ensures n[..k] == m[..k]
  {
    hide Named;
    if k > 0 {
      SameNames(r, s, cs, h, n, m, k - 1);
      SameNameAt(r, s, cs, h, n, m, k - 1);
      assert n[..k] == n[..k - 1] + [n[k - 1]] && m[..k] == m[..k - 1] + [m[k - 1]];
    }
  }

  lemma SameRegistry(
    cheap: bool, r: Registry, s: Scan, cs: seq<Candidate>, h: seq<Option<Id>>, n: seq<Option<Id>>, t: Registry, u: Registry)
    requires |h| == |n| == |cs| && forall k :: 0 <= k < |cs| && h[k].Some? ==> n[k] == h[k]
    requires Becomes(cheap, r, s, cs, h, n, t) && Becomes(cheap, r, s, cs, h, n, u)
    ensures t == u
  {
    hide Away, Written;
    forall id
      ensures id in t.repos <==> id in u.repos
      ensures id in t.repos ==> t.repos[id] == u.repos[id]
    {
      if id in Held(n, |n|) {
        var k :| 0 <= k < |n| && n[k] == Some(id);
        assert n[k].value == id;
      } else if id in r.repos {
        HeldNames(cs, h, n);
      }
    }
    assert t.retired == u.retired;
  }

  /** There is only one answer: whatever else fits the description is the scan's own result. */
  lemma AnswerIsDetermined(
    cheap: bool, r: Registry, prev: Listing, s: Scan, d: seq<Option<Id>>, h: seq<Option<Id>>, n: seq<Option<Id>>,
    t: Result<Registry, Failure>)
    requires Lists(prev, r.repos) && RegistryInv(r) && Discovered(s)
    ensures Answers(cheap, r, prev, s, d, h, n, t) ==> t == Reconcile(cheap, prev, r.retired, s)
  {
    if Answers(cheap, r, prev, s, d, h, n, t) {
      ScanAnswers(cheap, r, prev, s);
      hide Discovered, Trees, Lists, RegistryInv, Reconcile, Directly, Moved, Named, Becomes, Raises, Held;
      var u := Reconcile(cheap, prev, r.retired, s);
      var cs := Trees(cheap, s);
      var e, g, m :| Answers(cheap, r, prev, s, e, g, m, u);
      SameAnswers(cheap, r, prev, s, cs, d, h, n, e, g, m);
      if t.Ok? {
        SameRegistry(cheap, r, s, cs, h, n, t.value, u.value);
      } else {
        assert t.error.GitFailed? && u.error.GitFailed?;
      }
    }
  }

  lemma SameAnswers(
    cheap: bool, r: Registry, prev: Listing, s: Scan, cs: seq<Candidate>, d: seq<Option<Id>>, h: seq<Option<Id>>,
    n: seq<Option<Id>>, e: seq<Option<Id>>, g: seq<Option<Id>>, m: seq<Option<Id>>)
    requires Directly(cheap, r, prev, cs, d) && Moved(r, s, cs, d, Held(d, |d|), h) && Named(r, s, cs, h, n)
    requires Directly(cheap, r, prev, cs, e) && Moved(r, s, cs, e, Held(e, |e|), g) && Named(r, s, cs, g, m)
    ensures d == e && h == g && n == m
    ensures |h| == |n| == |cs| && forall k :: 0 <= k < |cs| && h[k].Some? ==> n[k] == h[k]
  {
    hide Held, Direct, AloneFits, FirstName;
    SameDirects(cheap, r, prev, cs, d, e, |cs|);
    assert d[..|cs|] == d && e[..|cs|] == e;
    SameMoves(r, s, cs, d, Held(d, |d|), h, g, |cs|);
    assert h[..|cs|] == h && g[..|cs|] == g;
    SameNames(r, s, cs, h, n, m, |cs|);
    assert n[..|cs|] == n && m[..|cs|] == m;
  }

  // ---------------------------------------------------------------- discovery

  /** The directory reached by these steps down. */
  function Down(t: Tree, way: seq<nat>): Option<Tree> {
    if way == [] then Some(t)
    else if way[0] < |t.children| then Down(t.children[way[0]], way[1..])
    else None
  }

  /** A directory with a `.git` of its own, which the full scan also wants to be a repository. */
  predicate Reported(cheap: bool, c: Candidate) {
    c.marker.Some? && (cheap || c.isRepo)
  }

  /** This way leads to the tree, which is reported, and passes none that is. */
  ghost predicate LeadsTo(cheap: bool, t: Tree, way: seq<nat>, c: Candidate) {
    && Down(t, way).Some? && Down(t, way).value.site == c && Reported(cheap, c)
    && forall i :: 0 <= i < |way| ==> Down(t, way[..i]).Some? && !Reported(cheap, Down(t, way[..i]).value.site)
  }

  lemma OneStepDown(cheap: bool, t: Tree, k: nat, way: seq<nat>, c: Candidate)
    requires k < |t.children| && !Reported(cheap, t.site)
    ensures LeadsTo(cheap, t, [k] + way, c) <==> LeadsTo(cheap, t.children[k], way, c)
  {
    var long := [k] + way;
    assert long[1..] == way;
    forall i | 0 <= i < |way|
      ensures Down(t, long[..i + 1]) == Down(t.children[k], way[..i])
    {
      assert long[..i + 1][1..] == way[..i];
    }
    if LeadsTo(cheap, t, long, c) {
      forall i | 0 <= i < |way|
        ensures Down(t.children[k], way[..i]).Some? && !Reported(cheap, Down(t.children[k], way[..i]).value.site)
      {
        assert Down(t, long[..i + 1]).Some?;
      }
    }
    if LeadsTo(cheap, t.children[k], way, c) {
      forall i | 0 <= i < |long|
        ensures Down(t, long[..i]).Some? && !Reported(cheap, Down(t, long[..i]).value.site)
      {
        if i > 0 {
          assert Down(t, long[..i]) == Down(t.children[k], way[..i - 1]);
        }
      }
    }
  }

  /** The walk reports just the outermost trees below a directory. */
  lemma {:induction false} WalkExactly(cheap: bool, t: Tree, c: Candidate)
    ensures c in Walk(cheap, t) <==> exists way :: LeadsTo(cheap, t, way, c)
  {
    if Reported(cheap, t.site) {
      if c == t.site {
        assert LeadsTo(cheap, t, [], c);
      } else {
        forall way
          ensures !LeadsTo(cheap, t, way, c)
        {
          assert way != [] ==> Down(t, way[..0]) == Some(t);
        }
      }
    } else {
      forall k | 0 <= k < |t.children|
        ensures c in Walk(cheap, t.children[k]) <==> exists way :: LeadsTo(cheap, t.children[k], way, c)
      {
        WalkExactly(cheap, t.children[k], c);
      }
      if c in Walk(cheap, t) {
        var k: nat :| k < |t.children| && c in Walk(cheap, t.children[k]);
        var way :| LeadsTo(cheap, t.children[k], way, c);
        OneStepDown(cheap, t, k, way, c);
      }
      if way :| LeadsTo(cheap, t, way, c) {
        assert way != [] && Down(t, way).Some?;
        assert way == [way[0]] + way[1..];
        OneStepDown(cheap, t, way[0], way[1..], c);
      }
    }
  }

  /** The full scan takes a root inside any work tree as it stands; below the other roots both report the outermost trees. */
  lemma DiscoveryExactly(cheap: bool, roots: seq<Tree>, c: Candidate)
    ensures c in Discover(cheap, roots) <==>
      exists k :: 0 <= k < |roots|
        && if !cheap && roots[k].site.isRepo then c == roots[k].site else exists way :: LeadsTo(cheap, roots[k], way, c)
  {
    forall k | 0 <= k < |roots|
      ensures c in DiscoverRoot(cheap, roots[k]) <==>
        if !cheap && roots[k].site.isRepo then c == roots[k].site else exists way :: LeadsTo(cheap, roots[k], way, c)
    {
      WalkExactly(cheap, roots[k], c);
    }
  }
}
