/**
The watcher's bounded fair queue as a machine: requests wait in `pending`, at most one per repository
path runs, and keys take turns by a cursor over `order`.  Which path a request resolves to, whether it
still resolves, and when a worker ends are the environment's.
*/
module WatcherQueue {
  import opened Prelude

  type File = nat
  type Key = nat
  type Path = nat

  datatype Item = Item(file: File, key: Key)

  datatype Running = Running(item: Item, path: Path)

  datatype Limits = Limits(workers: nat, jobs: nat)

  /** arrived, departed and dispatched are records of what entered, left and was handed to a worker. */
  datatype Watcher = Watcher(
    pending: seq<Item>, active: seq<Running>, order: seq<Key>, cursor: nat,
    signed: seq<File>, arrived: seq<Item>, departed: seq<Item>, dispatched: seq<Key>)

  const IDLE := Watcher([], [], [], 0, [], [], [], [])

  /** The latest registry's answer: a path, or None where resolving it raises. */
  type Route = File -> Option<Path>

  datatype Label = Enqueue(item: Item) | Dispatch(route: Route) | Reap(index: nat)

  function Without<T>(s: seq<T>, i: nat): seq<T>
    requires i < |s|
  {
    s[..i] + s[i + 1..]
  }

  /** Only the first queued request of each key is eligible. */
  predicate First(pending: seq<Item>, i: nat)
    requires i < |pending|
  {
    forall j :: 0 <= j < i ==> pending[j].key != pending[i].key
  }

  predicate Busy(active: seq<Running>, path: Path) {
    exists i :: 0 <= i < |active| && active[i].path == path
  }

  datatype Survey = Survey(runnable: map<Key, (nat, Path)>, error: Option<nat>)

  /** The inner loop of `dispatch_pending` over the first k requests. */
  function Look(pending: seq<Item>, active: seq<Running>, route: Route, k: nat): Survey
    requires k <= |pending|
  {
    if k == 0 then Survey(map[], None)
    else
      var p := Look(pending, active, route, k - 1);
      var item := pending[k - 1];
      if p.error.Some? || !First(pending, k - 1) then p
      else
        match route(item.file)
        case None => p.(error := Some(k - 1))
        case Some(path) => if Busy(active, path) then p else p.(runnable := p.runnable[item.key := (k - 1, path)])
  }

  function Place(n: nat, cursor: nat, offset: nat): (p: nat)
    requires cursor < n && offset < n
    ensures p == if cursor + offset < n then cursor + offset else cursor + offset - n
  {
    Modulo(n, cursor + offset);
    (cursor + offset) % n
  }

  lemma Modulo(n: nat, x: nat)
    requires x < 2 * n
    ensures x % n == if x < n then x else x - n
  {
    if x >= n {
      assert x == n * 1 + (x - n);
      assert (x - n) < n;
    }
  }

  /** The key whose turn comes offset places after the cursor, going round, can run. */
  predicate Ready(order: seq<Key>, cursor: nat, keys: set<Key>, offset: nat) {
    cursor < |order| && offset < |order| && order[Place(|order|, cursor, offset)] in keys
  }

  function Turn(order: seq<Key>, cursor: nat, keys: set<Key>, offset: nat): (r: Option<nat>)
    requires offset <= |order|
    ensures r.Some? ==> Ready(order, cursor, keys, r.value) && forall m :: offset <= m < r.value ==> !Ready(order, cursor, keys, m)
    ensures r.None? ==> forall m :: offset <= m < |order| ==> !Ready(order, cursor, keys, m)
    decreases |order| - offset
  {
    if offset == |order| then None
    else if Ready(order, cursor, keys, offset) then Some(offset)
    else Turn(order, cursor, keys, offset + 1)
  }

  /** One round of the dispatch loop; the watcher is unchanged when nothing can be chosen. */
  function DispatchOne(limits: Limits, w: Watcher, route: Route): Watcher {
    if w.pending == [] || |w.active| >= limits.workers then w
    else
      var survey := Look(w.pending, w.active, route, |w.pending|);
      if survey.error.Some? then if survey.error.value < |w.pending| then Refuse(w, survey.error.value) else w
      else
        match Turn(w.order, w.cursor, survey.runnable.Keys, 0)
        case None => w
        case Some(offset) =>
          var pos := Place(|w.order|, w.cursor, offset);
          var (i, path) := survey.runnable[w.order[pos]];
          if i < |w.pending| then Start(w, pos, i, path) else w
  }

  function Refuse(w: Watcher, i: nat): Watcher
    requires i < |w.pending|
  {
    w.(pending := Without(w.pending, i), signed := w.signed + [w.pending[i].file], departed := w.departed + [w.pending[i]])
  }

  function Start(w: Watcher, pos: nat, i: nat, path: Path): Watcher
    requires i < |w.pending| && pos < |w.order|
  {
    w.(pending := Without(w.pending, i), active := w.active + [Running(w.pending[i], path)],
       cursor := (pos + 1) % |w.order|, departed := w.departed + [w.pending[i]],
       dispatched := w.dispatched + [w.pending[i].key])
  }

  function Apply(limits: Limits, w: Watcher, l: Label): Watcher {
    match l
    case Enqueue(item) =>
      w.(pending := w.pending + [item], order := if item.key in w.order then w.order else w.order + [item.key],
         arrived := w.arrived + [item])
    case Dispatch(route) => DispatchOne(limits, w, route)
    case Reap(i) =>
      if i < |w.active| then w.(active := Without(w.active, i), signed := w.signed + [w.active[i].item.file]) else w
  }

  function Exec(limits: Limits, w: Watcher, labels: seq<Label>): Watcher
    decreases |labels|
  {
    if labels == [] then w else Exec(limits, Apply(limits, w, labels[0]), labels[1..])
  }

  // ---------------------------------------------------------------- the survey and the turn

  predicate Eligible(pending: seq<Item>, active: seq<Running>, route: Route, i: nat) {
    i < |pending| && First(pending, i) && route(pending[i].file).Some? && !Busy(active, route(pending[i].file).value)
  }

  /** A runnable key stands for its first request, which resolves to a path nothing runs in. */
  predicate Chosen(pending: seq<Item>, active: seq<Running>, route: Route, k: nat, key: Key, i: nat, path: Path) {
    i < k && i < |pending| && pending[i].key == key && Eligible(pending, active, route, i) && route(pending[i].file) == Some(path)
  }

  predicate Failing(pending: seq<Item>, route: Route, k: nat, i: nat) {
    i < k && i < |pending| && First(pending, i) && route(pending[i].file).None?
  }

  /** Without an error, every first request resolves, and those whose path is free can run. */
  predicate Covers(pending: seq<Item>, active: seq<Running>, route: Route, s: Survey, i: nat)
    requires i < |pending|
  {
    && (First(pending, i) ==> route(pending[i].file).Some?)
    && (Eligible(pending, active, route, i) ==> pending[i].key in s.runnable)
  }

  ghost predicate Surveyed(pending: seq<Item>, active: seq<Running>, route: Route, k: nat, s: Survey)
    requires k <= |pending|
  {
    && (forall key :: key in s.runnable ==> Chosen(pending, active, route, k, key, s.runnable[key].0, s.runnable[key].1))
    && (s.error.Some? ==> Failing(pending, route, k, s.error.value))
    && (s.error.None? ==> forall i: nat :: i < k ==> Covers(pending, active, route, s, i))
  }

  lemma {:induction false} LookIsSurveyed(pending: seq<Item>, active: seq<Running>, route: Route, k: nat)
    requires k <= |pending|
    ensures Surveyed(pending, active, route, k, Look(pending, active, route, k))
  {
    if k > 0 {
      LookIsSurveyed(pending, active, route, k - 1);
      var p := Look(pending, active, route, k - 1);
      var s := Look(pending, active, route, k);
      hide First;
      forall key | key in s.runnable
        ensures Chosen(pending, active, route, k, key, s.runnable[key].0, s.runnable[key].1)
      {
        if key in p.runnable {
          assert Chosen(pending, active, route, k - 1, key, p.runnable[key].0, p.runnable[key].1);
        }
      }
      if s.error.None? {
        forall i: nat | i < k
          ensures Covers(pending, active, route, s, i)
        {
          assert i < k - 1 ==> Covers(pending, active, route, p, i);
        }
      }
    }
  }

  lemma LookFacts(pending: seq<Item>, active: seq<Running>, route: Route, k: nat)
    requires k <= |pending|
    ensures forall key :: key in Look(pending, active, route, k).runnable ==>
      var (i, path) := Look(pending, active, route, k).runnable[key];
      i < k && pending[i].key == key && Eligible(pending, active, route, i) && route(pending[i].file) == Some(path)
    ensures Look(pending, active, route, k).error.Some? ==>
      var i := Look(pending, active, route, k).error.value;
      i < k && First(pending, i) && route(pending[i].file).None?
    ensures Look(pending, active, route, k).error.None? ==>
      forall i: nat :: i < k ==>
        && (First(pending, i) ==> route(pending[i].file).Some?)
        && (Eligible(pending, active, route, i) ==> pending[i].key in Look(pending, active, route, k).runnable)
  {
    LookIsSurveyed(pending, active, route, k);
    var s := Look(pending, active, route, k);
    hide Look, First, Eligible;
    forall key | key in s.runnable
      ensures Chosen(pending, active, route, k, key, s.runnable[key].0, s.runnable[key].1)
    {
    }
    forall i: nat | s.error.None? && i < k
      ensures Covers(pending, active, route, s, i)
    {
    }
  }

  /** Steps from the cursor to a position, going round. */
  function Distance(n: nat, cursor: nat, pos: nat): (d: nat)
    requires cursor < n && pos < n
    ensures d < n && Place(n, cursor, d) == pos
  {
    if pos >= cursor then pos - cursor else pos + n - cursor
  }

  // ---------------------------------------------------------------- invariant

  function ItemFiles(s: seq<Item>): (r: multiset<File>) {
    if s == [] then multiset{} else ItemFiles(s[..|s| - 1]) + multiset{s[|s| - 1].file}
  }

  function RunningFiles(s: seq<Running>): (r: multiset<File>) {
    if s == [] then multiset{} else RunningFiles(s[..|s| - 1]) + multiset{s[|s| - 1].item.file}
  }

  /** The requests of one key, in order. */
  function Of(s: seq<Item>, key: Key): (r: seq<Item>) {
    if s == [] then []
    else
      var last := s[|s| - 1];
      if last.key == key then Of(s[..|s| - 1], key) + [last] else Of(s[..|s| - 1], key)
  }

  predicate Bounded(limits: Limits, w: Watcher) {
    |w.active| <= limits.workers && |w.pending| + |w.active| <= limits.jobs
  }

  /** At most one running request per repository path. */
  predicate OnePerPath(w: Watcher) {
    forall i, j :: 0 <= i < j < |w.active| ==> w.active[i].path != w.active[j].path
  }

  predicate OrderOk(w: Watcher) {
    && NoDuplicates(w.order) && (w.order == [] ==> w.cursor == 0) && (w.order != [] ==> w.cursor < |w.order|)
    && forall i :: 0 <= i < |w.pending| ==> w.pending[i].key in w.order
  }

  /** Every request that arrived is waiting, running or signed, and in one place only. */
  predicate Accounted(w: Watcher) {
    ItemFiles(w.arrived) == ItemFiles(w.pending) + RunningFiles(w.active) + multiset(w.signed)
  }

  /** Requests of one key leave the queue in the order they arrived. */
  ghost predicate InOrder(w: Watcher) {
    forall key: Key :: Of(w.arrived, key) == Of(w.departed, key) + Of(w.pending, key)
  }

  ghost predicate QueueInv(limits: Limits, w: Watcher) {
    Bounded(limits, w) && OnePerPath(w) && OrderOk(w) && Accounted(w) && InOrder(w)
  }

  /** The guard of `ingest_requests`. */
  predicate Lawful(limits: Limits, w: Watcher, l: Label) {
    l.Enqueue? ==> |w.pending| + |w.active| < limits.jobs
  }

  // ---------------------------------------------------------------- removing one element

  lemma {:induction false} ItemFilesAppend(a: seq<Item>, b: seq<Item>)
    ensures ItemFiles(a + b) == ItemFiles(a) + ItemFiles(b)
  {
    if b == [] {
      assert a + b == a;
    } else {
      assert (a + b)[..|a + b| - 1] == a + b[..|b| - 1];
      ItemFilesAppend(a, b[..|b| - 1]);
    }
  }

  lemma ItemFilesOne(x: Item)
    ensures ItemFiles([x]) == multiset{x.file}
  {
    assert [x][..0] == [];
  }

  lemma ItemFilesWithout(s: seq<Item>, i: nat)
    requires i < |s|
    ensures ItemFiles(s) == ItemFiles(Without(s, i)) + multiset{s[i].file}
  {
    hide ItemFiles;
    assert s == s[..i] + ([s[i]] + s[i + 1..]);
    ItemFilesAppend(s[..i], [s[i]] + s[i + 1..]);
    ItemFilesAppend([s[i]], s[i + 1..]);
    ItemFilesAppend(s[..i], s[i + 1..]);
    ItemFilesOne(s[i]);
  }

  lemma {:induction false} RunningFilesAppend(a: seq<Running>, b: seq<Running>)
    ensures RunningFiles(a + b) == RunningFiles(a) + RunningFiles(b)
  {
    if b == [] {
      assert a + b == a;
    } else {
      assert (a + b)[..|a + b| - 1] == a + b[..|b| - 1];
      RunningFilesAppend(a, b[..|b| - 1]);
    }
  }

  lemma RunningFilesOne(x: Running)
    ensures RunningFiles([x]) == multiset{x.item.file}
  {
    assert [x][..0] == [];
  }

  lemma RunningFilesWithout(s: seq<Running>, i: nat)
    requires i < |s|
    ensures RunningFiles(s) == RunningFiles(Without(s, i)) + multiset{s[i].item.file}
  {
    hide RunningFiles;
    assert s == s[..i] + ([s[i]] + s[i + 1..]);
    RunningFilesAppend(s[..i], [s[i]] + s[i + 1..]);
    RunningFilesAppend([s[i]], s[i + 1..]);
    RunningFilesAppend(s[..i], s[i + 1..]);
    RunningFilesOne(s[i]);
  }

  lemma {:induction false} OfAppend(a: seq<Item>, b: seq<Item>, key: Key)
    ensures Of(a + b, key) == Of(a, key) + Of(b, key)
  {
    if b == [] {
      assert a + b == a;
    } else {
      assert (a + b)[..|a + b| - 1] == a + b[..|b| - 1];
      OfAppend(a, b[..|b| - 1], key);
    }
  }

  lemma {:induction false} OfNone(s: seq<Item>, key: Key)
    requires forall i :: 0 <= i < |s| ==> s[i].key != key
    ensures Of(s, key) == []
  {
    if s != [] {
      OfNone(s[..|s| - 1], key);
    }
  }

  /** Taking the first request of its key leaves every key's remaining order as it was. */
  lemma OfWithoutFirst(s: seq<Item>, i: nat, key: Key)
    requires i < |s| && First(s, i)
    ensures Of(s, key) == Of([s[i]], key) + Of(Without(s, i), key)
  {
    assert s == s[..i] + ([s[i]] + s[i + 1..]);
    OfAppend(s[..i], [s[i]] + s[i + 1..], key);
    OfAppend([s[i]], s[i + 1..], key);
    OfAppend(s[..i], s[i + 1..], key);
    if s[i].key == key {
      OfNone(s[..i], key);
    } else {
      OfNone([s[i]], key);
    }
  }

  // ---------------------------------------------------------------- each step

  lemma PopKeepsOrder(w: Watcher, t: Watcher, i: nat)
    requires InOrder(w) && i < |w.pending| && First(w.pending, i)
    requires t.pending == Without(w.pending, i) && t.departed == w.departed + [w.pending[i]] && t.arrived == w.arrived
    ensures InOrder(t)
  {
    forall key: Key
      ensures Of(t.arrived, key) == Of(t.departed, key) + Of(t.pending, key)
    {
      OfWithoutFirst(w.pending, i, key);
      OfAppend(w.departed, [w.pending[i]], key);
    }
  }

  lemma RefuseAccounted(w: Watcher, i: nat)
    requires Accounted(w) && i < |w.pending|
    ensures Accounted(Refuse(w, i))
  {
    hide ItemFiles, RunningFiles;
    ItemFilesWithout(w.pending, i);
  }

  lemma RefuseKeepsInv(limits: Limits, w: Watcher, i: nat)
    requires QueueInv(limits, w) && i < |w.pending| && First(w.pending, i)
    ensures QueueInv(limits, Refuse(w, i))
  {
    PopKeepsOrder(w, Refuse(w, i), i);
    RefuseAccounted(w, i);
    hide Accounted, InOrder, First;
  }

  lemma StartAccounted(w: Watcher, pos: nat, i: nat, path: Path)
    requires Accounted(w) && i < |w.pending| && pos < |w.order|
    ensures Accounted(Start(w, pos, i, path))
  {
    var t := Start(w, pos, i, path);
    ItemFilesWithout(w.pending, i);
    assert t.active[..|w.active|] == w.active;
    assert RunningFiles(t.active) == RunningFiles(w.active) + multiset{w.pending[i].file};
  }

  lemma StartKeepsInv(limits: Limits, w: Watcher, pos: nat, i: nat, path: Path)
    requires QueueInv(limits, w) && i < |w.pending| && pos < |w.order| && First(w.pending, i)
    requires |w.active| < limits.workers && !Busy(w.active, path)
    ensures QueueInv(limits, Start(w, pos, i, path))
  {
    var t := Start(w, pos, i, path);
    PopKeepsOrder(w, t, i);
    StartAccounted(w, pos, i, path);
    hide Accounted, InOrder, First;
  }

  lemma DispatchKeepsInv(limits: Limits, w: Watcher, route: Route)
    requires QueueInv(limits, w)
    ensures QueueInv(limits, DispatchOne(limits, w, route))
  {
    LookFacts(w.pending, w.active, route, |w.pending|);
    var survey := Look(w.pending, w.active, route, |w.pending|);
    if w.pending != [] && |w.active| < limits.workers {
      if survey.error.Some? {
        RefuseKeepsInv(limits, w, survey.error.value);
      } else {
        var turn := Turn(w.order, w.cursor, survey.runnable.Keys, 0);
        if turn.Some? {
          var pos := Place(|w.order|, w.cursor, turn.value);
          var (i, path) := survey.runnable[w.order[pos]];
          StartKeepsInv(limits, w, pos, i, path);
        }
      }
    }
  }

  lemma EnqueueKeepsInv(limits: Limits, w: Watcher, item: Item)
    requires QueueInv(limits, w) && |w.pending| + |w.active| < limits.jobs
    ensures QueueInv(limits, Apply(limits, w, Enqueue(item)))
  {
    var t := Apply(limits, w, Enqueue(item));
    assert t.pending[..|w.pending|] == w.pending && t.arrived[..|w.arrived|] == w.arrived;
    forall key: Key
      ensures Of(t.arrived, key) == Of(t.departed, key) + Of(t.pending, key)
    {
      OfAppend(w.arrived, [item], key);
      OfAppend(w.pending, [item], key);
    }
  }

  lemma ReapKeepsInv(limits: Limits, w: Watcher, i: nat)
    requires QueueInv(limits, w) && i < |w.active|
    ensures QueueInv(limits, Apply(limits, w, Reap(i)))
  {
    hide ItemFiles, RunningFiles, Of;
    RunningFilesWithout(w.active, i);
    var t := Apply(limits, w, Reap(i));
    assert OnePerPath(t) by {
      forall a, b | 0 <= a < b < |t.active|
        ensures t.active[a].path != t.active[b].path
      {
        assert t.active[a] == w.active[if a < i then a else a + 1];
        assert t.active[b] == w.active[if b < i then b else b + 1];
      }
    }
  }

  lemma ApplyKeepsInv(limits: Limits, w: Watcher, l: Label)
    requires QueueInv(limits, w) && Lawful(limits, w, l)
    ensures QueueInv(limits, Apply(limits, w, l))
  {
    match l
    case Enqueue(item) => EnqueueKeepsInv(limits, w, item);
    case Dispatch(route) => DispatchKeepsInv(limits, w, route);
    case Reap(i) => if i < |w.active| { ReapKeepsInv(limits, w, i); }
  }

  ghost predicate AllLawful(limits: Limits, w: Watcher, labels: seq<Label>)
    decreases |labels|
  {
    labels == [] || (Lawful(limits, w, labels[0]) && AllLawful(limits, Apply(limits, w, labels[0]), labels[1..]))
  }

  lemma {:induction false} ExecKeepsInv(limits: Limits, w: Watcher, labels: seq<Label>)
    requires QueueInv(limits, w) && AllLawful(limits, w, labels)
    ensures QueueInv(limits, Exec(limits, w, labels))
    decreases |labels|
  {
    if labels != [] {
      ApplyKeepsInv(limits, w, labels[0]);
      ExecKeepsInv(limits, Apply(limits, w, labels[0]), labels[1..]);
    }
  }

  /**
  In every reachable state: the bounds hold, no path runs twice, every arrived request is in exactly one
  of waiting, running and signed, and each key's requests leave in arrival order.
  */
  lemma ReachableWatcher(limits: Limits, labels: seq<Label>, file: File, key: Key)
    requires AllLawful(limits, IDLE, labels)
    ensures var w := Exec(limits, IDLE, labels);
      && |w.active| <= limits.workers && |w.pending| + |w.active| <= limits.jobs
      && OnePerPath(w)
      && (ItemFiles(w.arrived)[file] == 1 ==>
        ItemFiles(w.pending)[file] + RunningFiles(w.active)[file] + multiset(w.signed)[file] == 1)
      && Of(w.departed, key) <= Of(w.arrived, key)
  {
    ExecKeepsInv(limits, IDLE, labels);
  }

  // ---------------------------------------------------------------- what one round does

  /** No earlier request waits under the same key. */
  predicate Heads(w: Watcher, i: nat) {
    i < |w.pending| && forall j :: 0 <= j < i ==> w.pending[j].key != w.pending[i].key
  }

  /** The earliest head of a key whose repository cannot be resolved. */
  predicate FirstUnresolved(w: Watcher, route: Route, i: nat) {
    && Heads(w, i) && route(w.pending[i].file).None?
    && forall j: nat :: j < i && Heads(w, j) ==> route(w.pending[j].file).Some?
  }

  /** The head of its key, resolved to a path in which nothing runs. */
  predicate CanRun(w: Watcher, route: Route, i: nat) {
    && Heads(w, i) && route(w.pending[i].file).Some?
    && forall r :: r in w.active ==> r.path != route(w.pending[i].file).value
  }

  /** Some request that can run waits under the key at this offset from the cursor, going round. */
  ghost predicate TurnAt(w: Watcher, route: Route, offset: nat) {
    && w.cursor < |w.order| && offset < |w.order|
    && exists i: nat :: CanRun(w, route, i) && w.pending[i].key == w.order[(w.cursor + offset) % |w.order|]
  }

  ghost predicate HasTurn(w: Watcher, route: Route, i: nat, offset: nat) {
    && CanRun(w, route, i) && w.cursor < |w.order| && offset < |w.order|
    && w.order[(w.cursor + offset) % |w.order|] == w.pending[i].key
    && forall m: nat :: m < offset ==> !TurnAt(w, route, m)
  }

  /** The request at i is signed as failed; nothing else changes. */
  predicate Fails(w: Watcher, t: Watcher, i: nat) {
    && i < |w.pending| && t.pending == w.pending[..i] + w.pending[i + 1..] && t.departed == w.departed + [w.pending[i]]
    && t.signed == w.signed + [w.pending[i].file] && t.active == w.active && t.cursor == w.cursor
    && t.dispatched == w.dispatched && t.order == w.order && t.arrived == w.arrived
  }

  /** The request at i starts in its path, and the cursor moves past its key. */
  predicate Starts(w: Watcher, route: Route, t: Watcher, i: nat, offset: nat) {
    && i < |w.pending| && t.pending == w.pending[..i] + w.pending[i + 1..] && t.departed == w.departed + [w.pending[i]]
    && route(w.pending[i].file).Some? && t.active == w.active + [Running(w.pending[i], route(w.pending[i].file).value)]
    && w.order != [] && t.cursor == ((w.cursor + offset) % |w.order| + 1) % |w.order|
    && t.dispatched == w.dispatched + [w.pending[i].key]
    && t.signed == w.signed && t.order == w.order && t.arrived == w.arrived
  }

  lemma {:induction false} EarliestFails(pending: seq<Item>, active: seq<Running>, route: Route, k: nat)
    requires k <= |pending|
    ensures var s := Look(pending, active, route, k);
      s.error.Some? ==> s.error.value < k && forall j :: 0 <= j < s.error.value && First(pending, j) ==> route(pending[j].file).Some?
  {
    if k > 0 {
      EarliestFails(pending, active, route, k - 1);
      LookIsSurveyed(pending, active, route, k - 1);
      var p := Look(pending, active, route, k - 1);
      hide First;
      if p.error.None? {
        forall j: nat | j < k - 1 && First(pending, j)
          ensures route(pending[j].file).Some?
        {
          assert Covers(pending, active, route, p, j);
        }
      }
    }
  }

  lemma CanRunIsEligible(w: Watcher, route: Route, i: nat)
    ensures CanRun(w, route, i) <==> Eligible(w.pending, w.active, route, i)
  {
    if i < |w.pending| && route(w.pending[i].file).Some? {
      var path := route(w.pending[i].file).value;
      if Busy(w.active, path) {
        var k :| 0 <= k < |w.active| && w.active[k].path == path;
        assert w.active[k] in w.active;
      }
    }
  }

  lemma HeadOfKey(w: Watcher, i: nat, j: nat)
    requires Heads(w, i) && Heads(w, j) && w.pending[i].key == w.pending[j].key
    ensures i == j
  {
  }

  lemma RefusesFirst(limits: Limits, w: Watcher, route: Route)
    requires w.pending != [] && |w.active| < limits.workers && Look(w.pending, w.active, route, |w.pending|).error.Some?
    ensures exists e: nat :: FirstUnresolved(w, route, e) && Fails(w, DispatchOne(limits, w, route), e)
  {
    LookFacts(w.pending, w.active, route, |w.pending|);
    EarliestFails(w.pending, w.active, route, |w.pending|);
    var e: nat := Look(w.pending, w.active, route, |w.pending|).error.value;
    hide Look;
    assert forall j: nat :: j < e && Heads(w, j) ==> First(w.pending, j);
    assert FirstUnresolved(w, route, e) && Fails(w, DispatchOne(limits, w, route), e);
  }

  /** The keys that can run are those of the heads that can. */
  ghost predicate KeysThatCan(w: Watcher, route: Route, s: Survey) {
    && (forall i: nat :: CanRun(w, route, i) ==> w.pending[i].key in s.runnable)
    && (forall key :: key in s.runnable ==> Stands(w, route, key, s.runnable[key].0, s.runnable[key].1))
  }

  predicate Stands(w: Watcher, route: Route, key: Key, i: nat, path: Path) {
    CanRun(w, route, i) && w.pending[i].key == key && route(w.pending[i].file) == Some(path)
  }

  lemma SurveyKeys(w: Watcher, route: Route)
    requires Look(w.pending, w.active, route, |w.pending|).error.None?
    ensures KeysThatCan(w, route, Look(w.pending, w.active, route, |w.pending|))
    ensures forall i: nat :: !FirstUnresolved(w, route, i)
  {
    var s := Look(w.pending, w.active, route, |w.pending|);
    LookFacts(w.pending, w.active, route, |w.pending|);
    hide Look, Eligible;
    forall i: nat
      ensures CanRun(w, route, i) ==> w.pending[i].key in s.runnable
      ensures i < |w.pending| && Eligible(w.pending, w.active, route, i) ==> CanRun(w, route, i)
    {
      CanRunIsEligible(w, route, i);
    }
    forall i: nat
      ensures !FirstUnresolved(w, route, i)
    {
      if i < |w.pending| && Heads(w, i) {
        assert First(w.pending, i);
      }
    }
  }

  lemma ReadyIsTurn(w: Watcher, route: Route, s: Survey, m: nat)
    requires KeysThatCan(w, route, s)
    ensures Ready(w.order, w.cursor, s.runnable.Keys, m) <==> TurnAt(w, route, m)
  {
    hide CanRun;
    if Ready(w.order, w.cursor, s.runnable.Keys, m) {
      var key := w.order[Place(|w.order|, w.cursor, m)];
      assert Stands(w, route, key, s.runnable[key].0, s.runnable[key].1);
    }
  }

  /** When it is some request's turn, that request starts; when it is nobody's, nothing happens. */
  lemma TurnsExactly(limits: Limits, w: Watcher, route: Route)
    requires OrderOk(w) && w.pending != [] && |w.active| < limits.workers
    requires Look(w.pending, w.active, route, |w.pending|).error.None?
    ensures (exists i: nat, offset: nat :: HasTurn(w, route, i, offset) && Starts(w, route, DispatchOne(limits, w, route), i, offset))
      || ((forall m: nat :: !TurnAt(w, route, m)) && DispatchOne(limits, w, route) == w)
  {
    var s := Look(w.pending, w.active, route, |w.pending|);
    SurveyKeys(w, route);
    hide Look, CanRun;
    forall m: nat
      ensures Ready(w.order, w.cursor, s.runnable.Keys, m) <==> TurnAt(w, route, m)
    {
      ReadyIsTurn(w, route, s, m);
    }
    var turn := Turn(w.order, w.cursor, s.runnable.Keys, 0);
    hide Turn, TurnAt, DispatchOne, KeysThatCan, HasTurn, Starts;
    if turn.Some? {
      TurnTaken(limits, w, route, s, turn.value);
    } else {
      NothingStarts(limits, w, route);
      assert forall m: nat :: m < |w.order| ==> !TurnAt(w, route, m);
      NoTurnBeyond(w, route);
    }
  }

  lemma NothingStarts(limits: Limits, w: Watcher, route: Route)
    requires w.pending != [] && |w.active| < limits.workers
    requires Look(w.pending, w.active, route, |w.pending|).error.None?
    requires Turn(w.order, w.cursor, Look(w.pending, w.active, route, |w.pending|).runnable.Keys, 0).None?
    ensures DispatchOne(limits, w, route) == w
  {
    hide Look, Turn;
  }

  lemma TurnTaken(limits: Limits, w: Watcher, route: Route, s: Survey, offset: nat)
    requires OrderOk(w) && w.pending != [] && |w.active| < limits.workers
    requires s == Look(w.pending, w.active, route, |w.pending|) && s.error.None? && KeysThatCan(w, route, s)
    requires Turn(w.order, w.cursor, s.runnable.Keys, 0) == Some(offset) && Ready(w.order, w.cursor, s.runnable.Keys, offset)
    requires forall m: nat :: m < offset ==> !TurnAt(w, route, m)
    ensures exists i: nat :: HasTurn(w, route, i, offset) && Starts(w, route, DispatchOne(limits, w, route), i, offset)
  {
    hide Look, Turn, TurnAt, CanRun, DispatchOne, OrderOk;
    var key := w.order[Place(|w.order|, w.cursor, offset)];
    var i := s.runnable[key].0;
    assert Stands(w, route, key, i, s.runnable[key].1);
    InQueue(w, route, i);
    StartsAt(limits, w, route, key);
    assert HasTurn(w, route, i, offset) && Starts(w, route, DispatchOne(limits, w, route), i, offset);
  }

  lemma InQueue(w: Watcher, route: Route, i: nat)
    requires CanRun(w, route, i)
    ensures i < |w.pending|
  {
  }

  lemma NoTurnBeyond(w: Watcher, route: Route)
    ensures forall m: nat :: m >= |w.order| ==> !TurnAt(w, route, m)
  {
  }

  /** A head that can run has a turn at its key's place. */
  lemma EveryKeyHasATurn(w: Watcher, route: Route, i: nat)
    requires OrderOk(w) && CanRun(w, route, i)
    ensures exists m: nat :: TurnAt(w, route, m)
  {
    var m := Wait(w, w.pending[i].key);
    assert TurnAt(w, route, m);
  }

  /**
  A round with a free worker: an unresolved head is refused first, the earliest of them; otherwise the
  request whose turn it is starts; and nothing happens only when no head can run.
  */
  lemma DispatchExactly(limits: Limits, w: Watcher, route: Route)
    requires QueueInv(limits, w) && w.pending != [] && |w.active| < limits.workers
    ensures var t := DispatchOne(limits, w, route);
      if exists i: nat :: FirstUnresolved(w, route, i) then exists i: nat :: FirstUnresolved(w, route, i) && Fails(w, t, i)
      else if exists i: nat :: CanRun(w, route, i) then
        exists i: nat, offset: nat :: HasTurn(w, route, i, offset) && Starts(w, route, t, i, offset)
      else t == w
  {
    if Look(w.pending, w.active, route, |w.pending|).error.Some? {
      RefusesFirst(limits, w, route);
    } else {
      SurveyKeys(w, route);
      assert OrderOk(w);
      hide Look, QueueInv, OrderOk, FirstUnresolved, CanRun, HasTurn, Starts;
      TurnsExactly(limits, w, route);
      if i: nat :| CanRun(w, route, i) {
        EveryKeyHasATurn(w, route, i);
      } else {
        NobodysTurn(w, route);
      }
    }
  }

  lemma NobodysTurn(w: Watcher, route: Route)
    requires forall i: nat :: !CanRun(w, route, i)
    ensures forall i: nat, m: nat :: !HasTurn(w, route, i, m)
  {
    hide CanRun;
  }

  /** Only one request is the earliest unresolved one, and only one has its turn. */
  lemma ChoiceIsUnique(w: Watcher, route: Route, i: nat, j: nat, a: nat, b: nat)
    ensures FirstUnresolved(w, route, i) && FirstUnresolved(w, route, j) ==> i == j
    ensures HasTurn(w, route, i, a) && HasTurn(w, route, j, b) ==> i == j && a == b
  {
    if HasTurn(w, route, i, a) && HasTurn(w, route, j, b) {
      assert TurnAt(w, route, a) && TurnAt(w, route, b);
      assert a == b;
      HeadOfKey(w, i, j);
    } else if FirstUnresolved(w, route, i) && FirstUnresolved(w, route, j) {
      assert i == j || i < j || j < i;
    }
  }

  // ---------------------------------------------------------------- progress

  /** The two inconsistency errors of the loops cannot be raised. */
  lemma AlwaysProgress(limits: Limits, w: Watcher, route: Route)
    requires QueueInv(limits, w) && limits.workers > 0
    ensures Look(w.pending, w.active, route, |w.pending|).runnable != map[] ==> w.order != []
    ensures w.pending != [] && w.active == [] ==> |DispatchOne(limits, w, route).pending| < |w.pending|
  {
    var survey := Look(w.pending, w.active, route, |w.pending|);
    RunnableIsOrdered(limits, w, route);
    hide QueueInv, Look, DispatchOne;
    if survey.runnable != map[] {
      var key :| key in survey.runnable;
      assert key in w.order;
    }
    if w.pending != [] && w.active == [] {
      HeadCanLeave(limits, w, route);
    }
  }

  lemma HeadCanLeave(limits: Limits, w: Watcher, route: Route)
    requires QueueInv(limits, w) && limits.workers > 0 && w.pending != [] && w.active == []
    ensures |DispatchOne(limits, w, route).pending| < |w.pending|
  {
    var survey := Look(w.pending, w.active, route, |w.pending|);
    LookFacts(w.pending, w.active, route, |w.pending|);
    if survey.error.None? {
      assert Eligible(w.pending, w.active, route, 0);
      assert w.pending[0].key in survey.runnable && w.pending[0].key in w.order;
      RunnableIsOrdered(limits, w, route);
      TurnComes(w, survey.runnable.Keys, w.pending[0].key);
      hide Look, Turn, QueueInv;
      var pos := Place(|w.order|, w.cursor, Turn(w.order, w.cursor, survey.runnable.Keys, 0).value);
      assert survey.runnable[w.order[pos]].0 < |w.pending|;
    }
  }

  lemma RunnableIsOrdered(limits: Limits, w: Watcher, route: Route)
    requires QueueInv(limits, w)
    ensures forall key :: key in Look(w.pending, w.active, route, |w.pending|).runnable ==> key in w.order
  {
    LookFacts(w.pending, w.active, route, |w.pending|);
    forall key | key in Look(w.pending, w.active, route, |w.pending|).runnable
      ensures key in w.order
    {
      var (i, path) := Look(w.pending, w.active, route, |w.pending|).runnable[key];
      assert w.pending[i].key == key;
    }
  }

  /** A key that can run gets a turn no later than its distance from the cursor. */
  lemma TurnComes(w: Watcher, keys: set<Key>, key: Key)
    requires OrderOk(w) && key in keys && key in w.order
    ensures w.order != [] && Turn(w.order, w.cursor, keys, 0).Some?
    ensures Turn(w.order, w.cursor, keys, 0).value <= Wait(w, key)
  {
    var d := Wait(w, key);
    assert Ready(w.order, w.cursor, keys, d);
  }

  function Position(order: seq<Key>, key: Key): (p: nat)
    requires key in order
    ensures p < |order| && order[p] == key
  {
    if order[0] == key then 0 else 1 + Position(order[1..], key)
  }

  /** How many keys are ahead of this one, counted round from the cursor. */
  function Wait(w: Watcher, key: Key): (d: nat)
    requires OrderOk(w) && key in w.order
    ensures d < |w.order| && w.order[Place(|w.order|, w.cursor, d)] == key
  {
    Distance(|w.order|, w.cursor, Position(w.order, key))
  }

  // ---------------------------------------------------------------- fairness

  predicate Served(w: Watcher, t: Watcher, key: Key) {
    t.dispatched == w.dispatched + [key]
  }

  /** Until the key is served: whenever anything is handed to a worker, this key could have been. */
  ghost predicate StaysRunnable(limits: Limits, w: Watcher, labels: seq<Label>, key: Key)
    decreases |labels|
  {
    labels == [] || (
      var t := Apply(limits, w, labels[0]);
      && t.order == w.order
      && (labels[0].Dispatch? && t.dispatched != w.dispatched ==>
        key in Look(w.pending, w.active, labels[0].route, |w.pending|).runnable)
      && (Served(w, t, key) || StaysRunnable(limits, t, labels[1..], key)))
  }

  /** What a round does when nothing fails and a key has its turn. */
  lemma StartsAt(limits: Limits, w: Watcher, route: Route, key: Key)
    requires w.pending != [] && |w.active| < limits.workers
    requires var s := Look(w.pending, w.active, route, |w.pending|);
      && s.error.None? && Turn(w.order, w.cursor, s.runnable.Keys, 0).Some?
      && key == w.order[Place(|w.order|, w.cursor, Turn(w.order, w.cursor, s.runnable.Keys, 0).value)]
      && s.runnable[key].0 < |w.pending|
    ensures var s := Look(w.pending, w.active, route, |w.pending|);
      DispatchOne(limits, w, route) ==
        Start(w, Place(|w.order|, w.cursor, Turn(w.order, w.cursor, s.runnable.Keys, 0).value), s.runnable[key].0, s.runnable[key].1)
  {
    hide Look, Turn;
  }

  /** A round that hands anything over hands over the request whose turn it is. */
  lemma HandsOverTurn(limits: Limits, w: Watcher, route: Route)
    requires QueueInv(limits, w) && DispatchOne(limits, w, route).dispatched != w.dispatched
    ensures w.order != [] && Turn(w.order, w.cursor, Look(w.pending, w.active, route, |w.pending|).runnable.Keys, 0).Some?
    ensures var pos := Place(|w.order|, w.cursor,
        Turn(w.order, w.cursor, Look(w.pending, w.active, route, |w.pending|).runnable.Keys, 0).value);
      && DispatchOne(limits, w, route).order == w.order
      && DispatchOne(limits, w, route).cursor == (pos + 1) % |w.order|
      && DispatchOne(limits, w, route).dispatched == w.dispatched + [w.order[pos]]
  {
    LookFacts(w.pending, w.active, route, |w.pending|);
    hide Look, Turn, QueueInv;
    var s := Look(w.pending, w.active, route, |w.pending|);
    if s.error.None? && Turn(w.order, w.cursor, s.runnable.Keys, 0).Some? {
      var pos := Place(|w.order|, w.cursor, Turn(w.order, w.cursor, s.runnable.Keys, 0).value);
      StartsAt(limits, w, route, w.order[pos]);
      hide DispatchOne;
    }
  }

  /** A dispatch serves the key or brings the cursor strictly nearer to it. */
  lemma DispatchComesNearer(limits: Limits, w: Watcher, route: Route, key: Key)
    requires QueueInv(limits, w) && key in Look(w.pending, w.active, route, |w.pending|).runnable
    requires DispatchOne(limits, w, route).dispatched != w.dispatched
    ensures key in w.order
    ensures var t := DispatchOne(limits, w, route);
      && t.order == w.order && |t.dispatched| == |w.dispatched| + 1 && t.dispatched[..|w.dispatched|] == w.dispatched
      && OrderOk(t)
      && (t.dispatched[|w.dispatched|] == key || Wait(t, key) < Wait(w, key))
  {
    RunnableIsOrdered(limits, w, route);
    DispatchKeepsInv(limits, w, route);
    HandsOverTurn(limits, w, route);
    var keys := Look(w.pending, w.active, route, |w.pending|).runnable.Keys;
    var t := DispatchOne(limits, w, route);
    assert OrderOk(w) && OrderOk(t);
    hide *;
    TurnComes(w, keys, key);
    var o := Turn(w.order, w.cursor, keys, 0).value;
    if w.order[Place(|w.order|, w.cursor, o)] != key {
      CursorNearer(w, t, key, o);
    }
  }

  lemma CursorNearer(w: Watcher, t: Watcher, key: Key, o: nat)
    requires OrderOk(w) && OrderOk(t) && key in w.order && t.order == w.order && o <= Wait(w, key)
    requires t.cursor == (Place(|w.order|, w.cursor, o) + 1) % |w.order|
    requires w.order[Place(|w.order|, w.cursor, o)] != key
    ensures Wait(t, key) < Wait(w, key)
  {
    var n := |w.order|;
    NearerAfter(n, w.cursor, o, Wait(w, key), Position(w.order, key));
    Modulo(n, Place(n, w.cursor, o) + 1);
  }

  lemma NearerAfter(n: nat, cursor: nat, o: nat, d: nat, p: nat)
    requires cursor < n && o < d < n && p < n && Place(n, cursor, d) == p
    ensures var next := if Place(n, cursor, o) + 1 == n then 0 else Place(n, cursor, o) + 1;
      Distance(n, next, p) < d
  {
  }

  lemma {:induction false} DispatchedGrows(limits: Limits, w: Watcher, labels: seq<Label>)
    ensures w.dispatched <= Exec(limits, w, labels).dispatched
    decreases |labels|
  {
    if labels != [] {
      DispatchedGrows(limits, Apply(limits, w, labels[0]), labels[1..]);
    }
  }

  lemma QuietStepKeepsWait(limits: Limits, w: Watcher, l: Label, key: Key)
    requires QueueInv(limits, w) && key in w.order && Apply(limits, w, l).order == w.order
    requires Apply(limits, w, l).dispatched == w.dispatched
    requires OrderOk(Apply(limits, w, l))
    ensures Wait(Apply(limits, w, l), key) == Wait(w, key)
  {
  }

  lemma ServedNow(w: Watcher, t: Watcher, key: Key)
    requires Served(w, t, key)
    ensures |t.dispatched| == |w.dispatched| + 1 && t.dispatched[|w.dispatched|] == key
  {
  }

  /** One step serves the key, or keeps its claim alive without moving the cursor away from it. */
  lemma ServedOrNearer(limits: Limits, w: Watcher, labels: seq<Label>, key: Key)
    requires QueueInv(limits, w) && labels != [] && AllLawful(limits, w, labels) && key in w.order
    requires StaysRunnable(limits, w, labels, key)
    ensures var t := Apply(limits, w, labels[0]);
      && OrderOk(t) && t.order == w.order
      && (Served(w, t, key)
        || (StaysRunnable(limits, t, labels[1..], key)
          && |t.dispatched| + Wait(t, key) <= |w.dispatched| + Wait(w, key) && |w.dispatched| <= |t.dispatched|))
  {
    var l := labels[0];
    var t := Apply(limits, w, l);
    ApplyKeepsInv(limits, w, l);
    assert OrderOk(t) && t.order == w.order;
    assert Served(w, t, key) || StaysRunnable(limits, t, labels[1..], key);
    if t.dispatched == w.dispatched {
      hide StaysRunnable;
      QuietStepKeepsWait(limits, w, l, key);
    } else {
      assert l.Dispatch? && key in Look(w.pending, w.active, l.route, |w.pending|).runnable;
      assert t == DispatchOne(limits, w, l.route);
      hide StaysRunnable, QueueInv, AllLawful, Look, DispatchOne, OrderOk, Apply;
      DispatchComesNearer(limits, w, l.route, key);
      assert t.dispatched == w.dispatched + [t.dispatched[|w.dispatched|]];
    }
  }

  /**
  Round-robin is bounded: while no new key arrives and the key's first request stays runnable, it is
  handed to a worker within as many dispatches as it has keys ahead of it, plus its own.
  */
  lemma {:induction false} FairWithin(limits: Limits, w: Watcher, labels: seq<Label>, key: Key)
    requires QueueInv(limits, w) && AllLawful(limits, w, labels) && key in w.order
    requires StaysRunnable(limits, w, labels, key)
    requires |Exec(limits, w, labels).dispatched| > |w.dispatched| + Wait(w, key)
    ensures Wait(w, key) < |w.order|
    ensures exists i :: |w.dispatched| <= i <= |w.dispatched| + Wait(w, key) && Exec(limits, w, labels).dispatched[i] == key
    decreases |labels|
  {
    var l := labels[0];
    var t := Apply(limits, w, l);
    var u := Exec(limits, t, labels[1..]);
    ApplyKeepsInv(limits, w, l);
    DispatchedGrows(limits, t, labels[1..]);
    ServedOrNearer(limits, w, labels, key);
    assert AllLawful(limits, t, labels[1..]) && u == Exec(limits, w, labels) && OrderOk(w);
    hide *;
    if Served(w, t, key) {
      ServedNow(w, t, key);
      assert u.dispatched[|w.dispatched|] == t.dispatched[|w.dispatched|];
    } else {
      FairWithin(limits, t, labels[1..], key);
    }
  }
}
