/**
The repository registry and its two scans.  The full scan asks Git about every tree it walks into and
for the history identity of every repository it finds; the cheap scan looks for `.git` entries and trusts
an unchanged marker instead.  Both are given here as functions of the previous registry and of what the
file system and Git would answer.
*/
module RegistryRules {
  import opened Prelude

  type Id = string
  type Path = seq<string>
  type Marker = nat
  type Identity = nat

  datatype Entry = Entry(name: string, path: Option<Path>, marker: Option<Marker>, identity: Option<Identity>)

  /** A dictionary in insertion order. */
  type Listing = seq<(Id, Entry)>

  /**
  A directory.  marker is that of its own `.git`, if it has one; isRepo says whether Git finds it inside a
  work tree; identity is what `repo_identity` would answer, None where it raises; readable says whether
  `repo_state` would answer.
  */
  datatype Candidate = Candidate(
    path: Path, name: string, slug: string, fingerprint: string, marker: Option<Marker>, isRepo: bool,
    identity: Option<Identity>, readable: bool)

  /** The directories a walk may enter: hidden, build and cache directories and links are left out. */
  datatype Tree = Tree(site: Candidate, children: seq<Tree>)

  /** roots are the configured roots that exist; order is how a set of trees is sorted by path. */
  datatype Scan = Scan(
    configured: seq<Path>, roots: seq<Tree>, reserved: set<Id>, order: set<Candidate> -> seq<Candidate>)
  {
    function Available(): (r: seq<Path>)
      ensures |r| == |roots| && forall i :: 0 <= i < |r| ==> r[i] == roots[i].site.path
    {
      seq(|roots|, i requires 0 <= i < |roots| => roots[i].site.path)
    }
  }

  datatype Registry = Registry(repos: map<Id, Entry>, retired: set<Id>)

  /** A Git query raised. */
  datatype Failure = GitFailed

  /** What a scan has bound so far: working tree to ID and verified identity. */
  datatype Claims = Claims(matched: map<Path, (Id, Identity)>, claimed: set<Id>)

  const NOTHING := Claims(map[], {})

  predicate Under(path: Path, roots: seq<Path>) {
    exists i :: 0 <= i < |roots| && roots[i] <= path
  }

  // ---------------------------------------------------------------- discovery

  /** Where a walk stops and reports: the full scan also asks Git. */
  predicate Stops(cheap: bool, c: Candidate) {
    c.marker.Some? && (cheap || c.isRepo)
  }

  function Walk(cheap: bool, t: Tree): set<Candidate> {
    if Stops(cheap, t.site) then {t.site}
    else set k, c | 0 <= k < |t.children| && c in Walk(cheap, t.children[k]) :: c
  }

  /** A root is taken as it stands by its own `.git` (cheap), or when it lies inside any work tree (full). */
  function DiscoverRoot(cheap: bool, t: Tree): set<Candidate> {
    if (if cheap then t.site.marker.Some? else t.site.isRepo) then {t.site} else Walk(cheap, t)
  }

  function Discover(cheap: bool, roots: seq<Tree>): set<Candidate> {
    set k, c | 0 <= k < |roots| && c in DiscoverRoot(cheap, roots[k]) :: c
  }

  function Candidates(cheap: bool, s: Scan): seq<Candidate> {
    s.order(Discover(cheap, s.roots))
  }

  // ---------------------------------------------------------------- lookups

  /** Later entries overwrite earlier ones. */
  function ByPath(prev: Listing, path: Path): (r: Option<(Id, Entry)>)
    ensures r.Some? ==> r.value in prev && r.value.1.path == Some(path)
    ensures r.None? ==> forall e :: e in prev ==> e.1.path != Some(path)
  {
    if prev == [] then None
    else
      var last := prev[|prev| - 1];
      if last.1.path == Some(path) then Some(last) else ByPath(prev[..|prev| - 1], path)
  }

  /** The first entry with the marker stays. */
  function ByMarker(prev: Listing, marker: Marker): (r: Option<(Id, Entry)>)
    ensures r.Some? ==> r.value in prev && r.value.1.marker == Some(marker)
    ensures r.None? ==> forall e :: e in prev ==> e.1.marker != Some(marker)
  {
    if prev == [] then None
    else
      var last := prev[|prev| - 1];
      var r := ByMarker(prev[..|prev| - 1], marker);
      if r.None? && last.1.marker == Some(marker) then Some(last) else r
  }

  function ByIdentity(prev: Listing, identity: Identity): (r: Listing)
    ensures forall e :: e in r ==> e in prev && e.1.identity == Some(identity)
  {
    if prev == [] then []
    else
      var rest := ByIdentity(prev[..|prev| - 1], identity);
      if prev[|prev| - 1].1.identity == Some(identity) then rest + [prev[|prev| - 1]] else rest
  }

  /** Unclaimed entries whose place lies under an available root. */
  function Unclaimed(es: Listing, claimed: set<Id>, available: seq<Path>): (r: seq<Id>)
    ensures forall id :: id in r ==>
      id !in claimed && exists e :: (id, e) in es && e.path.Some? && Under(e.path.value, available)
  {
    if es == [] then []
    else
      var rest := Unclaimed(es[..|es| - 1], claimed, available);
      var (id, e) := es[|es| - 1];
      assert es[|es| - 1] in es;
      if id !in claimed && e.path.Some? && Under(e.path.value, available) then rest + [id] else rest
  }

  function Movable(prev: Listing, identity: Identity, claimed: set<Id>, available: seq<Path>): (r: seq<Id>)
    ensures forall id :: id in r ==>
      id !in claimed && exists e :: (id, e) in prev && e.identity == Some(identity) && e.path.Some? && Under(e.path.value, available)
  {
    Unclaimed(ByIdentity(prev, identity), claimed, available)
  }

  predicate Known(prev: Listing, c: Candidate) {
    ByPath(prev, c.path).Some? || (c.marker.Some? && ByMarker(prev, c.marker.value).Some?)
  }

  // ---------------------------------------------------------------- direct matches

  type Direct = Option<((Id, Entry), Identity)>

  /** The path and marker rules of the cheap scan: an unchanged marker vouches for the recorded identity. */
  function CheapByPath(prev: Listing, c: Candidate): Result<Direct, Failure> {
    match ByPath(prev, c.path)
    case None => Ok(None)
    case Some(prior) =>
      if (prior.1.marker.None? || prior.1.marker == c.marker) && prior.1.identity.Some? then
        Ok(Some((prior, prior.1.identity.value)))
      else if c.identity.None? then Err(GitFailed)
      else if prior.1.marker.None? || prior.1.marker == c.marker || prior.1.identity.None? || prior.1.identity == c.identity then
        Ok(Some((prior, c.identity.value)))
      else Ok(None)
  }

  function CheapByMarker(prev: Listing, c: Candidate, claimed: set<Id>): Result<Direct, Failure> {
    if c.marker.None? then Ok(None)
    else
      match ByMarker(prev, c.marker.value)
      case None => Ok(None)
      case Some(prior) =>
        if prior.0 in claimed then Ok(None)
        else if prior.1.identity.Some? then Ok(Some((prior, prior.1.identity.value)))
        else if c.identity.None? then Err(GitFailed)
        else Ok(Some((prior, c.identity.value)))
  }

  /** The rules of the full scan: only an unchanged identity, or none recorded, is accepted. */
  function FullByPath(prev: Listing, c: Candidate): Direct
    requires c.identity.Some?
  {
    match ByPath(prev, c.path)
    case None => None
    case Some(prior) =>
      if prior.1.identity.None? || prior.1.identity == c.identity then Some((prior, c.identity.value)) else None
  }

  function FullByMarker(prev: Listing, c: Candidate, claimed: set<Id>): Direct
    requires c.identity.Some?
  {
    if c.marker.None? then None
    else
      match ByMarker(prev, c.marker.value)
      case None => None
      case Some(prior) =>
        if prior.0 !in claimed && (prior.1.identity.None? || prior.1.identity == c.identity) then Some((prior, c.identity.value))
        else None
  }

  function DirectMatch(cheap: bool, prev: Listing, c: Candidate, claimed: set<Id>): Result<Direct, Failure>
    requires cheap || c.identity.Some?
  {
    if cheap then
      var r := CheapByPath(prev, c);
      if r.Err? || r.value.Some? then r else CheapByMarker(prev, c, claimed)
    else
      var d := FullByPath(prev, c);
      Ok(if d.Some? then d else FullByMarker(prev, c, claimed))
  }

  function Claim(claims: Claims, path: Path, id: Id, identity: Identity): Claims {
    if id in claims.claimed then claims
    else Claims(claims.matched[path := (id, identity)], claims.claimed + {id})
  }

  predicate AllIdentified(cs: seq<Candidate>) {
    forall i :: 0 <= i < |cs| ==> cs[i].identity.Some?
  }

  /** First pass: direct matches, in candidate order. */
  function FirstPass(cheap: bool, prev: Listing, cs: seq<Candidate>): Result<Claims, Failure>
    requires cheap || AllIdentified(cs)
  {
    if cs == [] then Ok(NOTHING)
    else
      var c := cs[|cs| - 1];
      match FirstPass(cheap, prev, cs[..|cs| - 1])
      case Err(e) => Err(e)
      case Ok(claims) =>
        match DirectMatch(cheap, prev, c, claims.claimed)
        case Err(e) => Err(e)
        case Ok(None) => Ok(claims)
        case Ok(Some((prior, identity))) => Ok(Claim(claims, c.path, prior.0, identity))
  }

  /** One candidate of the second pass: a move is inferred only when exactly one old entry fits. */
  function ByHistory(prev: Listing, available: seq<Path>, claims: Claims, c: Candidate): Result<Claims, Failure> {
    if c.path in claims.matched || !c.isRepo then Ok(claims)
    else if c.identity.None? then if Known(prev, c) then Err(GitFailed) else Ok(claims)
    else
      var ids := Movable(prev, c.identity.value, claims.claimed, available);
      Ok(if |ids| == 1 then Claim(claims, c.path, ids[0], c.identity.value) else claims)
  }

  function SecondPass(prev: Listing, available: seq<Path>, cs: seq<Candidate>, first: Claims): Result<Claims, Failure> {
    if cs == [] then Ok(first)
    else
      match SecondPass(prev, available, cs[..|cs| - 1], first)
      case Err(e) => Err(e)
      case Ok(claims) => ByHistory(prev, available, claims, cs[|cs| - 1])
  }

  // ---------------------------------------------------------------- entries kept and written

  /** Whether an unmatched old entry stays: its root is only offline. */
  predicate Offline(cheap: bool, e: Entry, s: Scan) {
    e.path.Some? && !Under(e.path.value, s.Available()) && (cheap || Under(e.path.value, s.configured))
  }

  function Preserved(cheap: bool, prev: Listing, claimed: set<Id>, s: Scan): (r: map<Id, Entry>) {
    if prev == [] then map[]
    else
      var r := Preserved(cheap, prev[..|prev| - 1], claimed, s);
      var (id, e) := prev[|prev| - 1];
      if id !in claimed && Offline(cheap, e, s) then r[id := e] else r
  }

  function Removed(cheap: bool, prev: Listing, claimed: set<Id>, s: Scan): (r: set<Id>) {
    if prev == [] then {}
    else
      var r := Removed(cheap, prev[..|prev| - 1], claimed, s);
      var (id, e) := prev[|prev| - 1];
      if id !in claimed && !Offline(cheap, e, s) then r + {id} else r
  }

  function Record(c: Candidate, identity: Identity): Entry {
    Entry(c.name, Some(c.path), c.marker, Some(identity))
  }

  function Matched(cs: seq<Candidate>, claims: Claims): (r: map<Id, Entry>) {
    if cs == [] then map[]
    else
      var c := cs[|cs| - 1];
      var r := Matched(cs[..|cs| - 1], claims);
      if c.path in claims.matched then r[claims.matched[c.path].0 := Record(c, claims.matched[c.path].1)] else r
  }

  // ---------------------------------------------------------------- fresh IDs

  function Digit(d: nat): char
    requires d < 10
  {
    "0123456789"[d]
  }

  function Decimal(n: nat): (s: string)
    ensures |s| > 0
  {
    if n < 10 then [Digit(n)] else Decimal(n / 10) + [Digit(n % 10)]
  }

  lemma {:induction false} DecimalInjective(m: nat, n: nat)
    requires Decimal(m) == Decimal(n)
    ensures m == n
  {
    var a, b := Decimal(m), Decimal(n);
    assert a[|a| - 1] == Digit(m % 10) && b[|b| - 1] == Digit(n % 10);
    assert m % 10 == n % 10;
    if m >= 10 && n >= 10 {
      assert a[..|a| - 1] == Decimal(m / 10) && b[..|b| - 1] == Decimal(n / 10);
      DecimalInjective(m / 10, n / 10);
    }
  }

  function Suffixed(stem: Id, n: nat): Id {
    stem + "-" + Decimal(n)
  }

  lemma SuffixedInjective(stem: Id, m: nat, n: nat)
    requires Suffixed(stem, m) == Suffixed(stem, n)
    ensures m == n
  {
    assert Suffixed(stem, m)[|stem| + 1..] == Decimal(m);
    assert Suffixed(stem, n)[|stem| + 1..] == Decimal(n);
    DecimalInjective(m, n);
  }

  ghost function Tried(stem: Id, n: nat): set<Id> {
    set k: nat | k < n :: Suffixed(stem, k)
  }

  /** The counter loop ends: each taken suffix uses up one of finitely many unavailable IDs. */
  lemma CounterProgress(stem: Id, n: nat, unavailable: set<Id>)
    requires Suffixed(stem, n) in unavailable
    ensures |unavailable - Tried(stem, n + 1)| < |unavailable - Tried(stem, n)|
  {
    var x := Suffixed(stem, n);
    if x in Tried(stem, n) {
      var k: nat :| k < n && Suffixed(stem, k) == x;
      SuffixedInjective(stem, k, n);
    }
    assert x in Tried(stem, n + 1);
    assert unavailable - Tried(stem, n + 1) == unavailable - Tried(stem, n) - {x};
  }

  function FirstFree(stem: Id, n: nat, unavailable: set<Id>): (id: Id)
    ensures id !in unavailable
    decreases |unavailable - Tried(stem, n)|
  {
    if Suffixed(stem, n) !in unavailable then Suffixed(stem, n)
    else
      CounterProgress(stem, n, unavailable);
      FirstFree(stem, n + 1, unavailable)
  }

  function FreshId(c: Candidate, unavailable: set<Id>): (id: Id)
    ensures id !in unavailable
  {
    var stem := if c.slug in unavailable then c.slug + "-" + c.fingerprint else c.slug;
    if stem in unavailable then FirstFree(stem, 2, unavailable) else stem
  }

  predicate Joins(claims: Claims, c: Candidate) {
    c.path !in claims.matched && c.isRepo && c.identity.Some?
  }

  function Added(cs: seq<Candidate>, claims: Claims, taken: set<Id>): (r: map<Id, Entry>)
    ensures forall id :: id in r ==> id !in taken
  {
    if cs == [] then map[]
    else
      var c := cs[|cs| - 1];
      var r := Added(cs[..|cs| - 1], claims, taken);
      if Joins(claims, c) then r[FreshId(c, taken + r.Keys) := Record(c, c.identity.value)] else r
  }

  // ---------------------------------------------------------------- both scans

  /** The full scan drops unknown trees without a history and refuses known ones. */
  function Records(prev: Listing, cs: seq<Candidate>): (r: Result<seq<Candidate>, Failure>)
    ensures r.Ok? ==> AllIdentified(r.value) && forall c :: c in r.value ==> c in cs
  {
    if cs == [] then Ok([])
    else
      var c := cs[|cs| - 1];
      match Records(prev, cs[..|cs| - 1])
      case Err(e) => Err(e)
      case Ok(rest) =>
        if c.identity.Some? then Ok(rest + [c])
        else if Known(prev, c) then Err(GitFailed)
        else Ok(rest)
  }

  function ScanRecords(cheap: bool, prev: Listing, s: Scan): (r: Result<seq<Candidate>, Failure>)
    ensures r.Ok? && !cheap ==> AllIdentified(r.value)
  {
    if cheap then Ok(Candidates(true, s)) else Records(prev, Candidates(false, s))
  }

  function Bound(cheap: bool, prev: Listing, s: Scan, cs: seq<Candidate>): Result<Claims, Failure>
    requires cheap || AllIdentified(cs)
  {
    match FirstPass(cheap, prev, cs)
    case Err(e) => Err(e)
    case Ok(first) => SecondPass(prev, s.Available(), cs, first)
  }

  function Assemble(
    cheap: bool, prev: Listing, retired: set<Id>, s: Scan, cs: seq<Candidate>, claims: Claims): Registry
  {
    var kept := Preserved(cheap, prev, claims.claimed, s);
    var matched := Matched(cs, claims);
    var gone := retired + Removed(cheap, prev, claims.claimed, s);
    var repos := kept + matched + Added(cs, claims, kept.Keys + matched.Keys + gone + s.reserved);
    Registry(repos, gone - repos.Keys)
  }

  /** `repo_state` raises: the cheap scan asks it about new trees only, the full scan about all. */
  predicate Unreadable(cheap: bool, cs: seq<Candidate>, claims: Claims) {
    exists c :: c in cs && !c.readable && (cheap ==> Joins(claims, c))
  }

  function Reconcile(cheap: bool, prev: Listing, retired: set<Id>, s: Scan): Result<Registry, Failure> {
    match ScanRecords(cheap, prev, s)
    case Err(e) => Err(e)
    case Ok(cs) =>
      match Bound(cheap, prev, s, cs)
      case Err(e) => Err(e)
      case Ok(claims) =>
        if Unreadable(cheap, cs, claims) then Err(GitFailed) else Ok(Assemble(cheap, prev, retired, s, cs, claims))
  }
}
