/**
The watcher's loops as they run.  `trace` is a ghost record of the queue steps taken: `Valid` says that
the fields are what these steps produce, so every property of reachable queues holds between any two
statements of the loops.  The loops return their error flags; the contracts show they are never set.
*/
module WatcherLoop {
  import opened Prelude
  import opened WatcherQueue

  /** What a mailbox name turns out to be once downloaded, validated and planned. */
  datatype Arrival = Gone | Transaction(key: Key) | Materialize | Immediate

  /** One round of the live loop: which workers have finished, and what the mailbox now lists. */
  datatype Tick = Tick(finished: set<File>, listed: seq<(File, Arrival)>)

  function Paths(active: seq<Running>): set<Path> {
    set i | 0 <= i < |active| :: active[i].path
  }

  function Files(active: seq<Running>): set<File> {
    set i | 0 <= i < |active| :: active[i].item.file
  }

  lemma {:induction false} ExecAppend(limits: Limits, w: Watcher, a: seq<Label>, l: Label)
    requires AllLawful(limits, w, a) && Lawful(limits, Exec(limits, w, a), l)
    ensures AllLawful(limits, w, a + [l])
    ensures Exec(limits, w, a + [l]) == Apply(limits, Exec(limits, w, a), l)
    decreases |a|
  {
    if a == [] {
      assert a + [l] == [l] && [l][1..] == [];
    } else {
      assert (a + [l])[1..] == a[1..] + [l];
      ExecAppend(limits, Apply(limits, w, a[0]), a[1..], l);
    }
  }

  lemma {:induction false} ItemFilesHas(s: seq<Item>, i: nat)
    requires i < |s|
    ensures ItemFiles(s)[s[i].file] >= 1
  {
    if i < |s| - 1 {
      ItemFilesHas(s[..|s| - 1], i);
    }
  }

  lemma {:induction false} RunningFilesHas(s: seq<Running>, i: nat)
    requires i < |s|
    ensures RunningFiles(s)[s[i].item.file] >= 1
  {
    if i < |s| - 1 {
      RunningFilesHas(s[..|s| - 1], i);
    }
  }

  lemma RunningFilesTwice(s: seq<Running>, i: nat, j: nat)
    requires i < j < |s| && s[i].item.file == s[j].item.file
    ensures RunningFiles(s)[s[i].item.file] >= 2
  {
    RunningFilesWithout(s, j);
    assert Without(s, j)[i] == s[i];
    RunningFilesHas(Without(s, j), i);
  }

  ghost predicate OneCopyEach(arrived: seq<Item>) {
    forall f: File :: ItemFiles(arrived)[f] <= 1
  }

  lemma FilesApart(limits: Limits, w: Watcher)
    requires QueueInv(limits, w) && OneCopyEach(w.arrived)
    ensures forall i, j :: 0 <= i < j < |w.active| ==> w.active[i].item.file != w.active[j].item.file
    ensures forall i, j :: 0 <= i < |w.active| && 0 <= j < |w.pending| ==> w.active[i].item.file != w.pending[j].file
  {
    forall i, j | 0 <= i < j < |w.active|
      ensures w.active[i].item.file != w.active[j].item.file
    {
      assert ItemFiles(w.arrived)[w.active[i].item.file] <= 1;
      if w.active[i].item.file == w.active[j].item.file {
        RunningFilesTwice(w.active, i, j);
      }
    }
    forall i, j | 0 <= i < |w.active| && 0 <= j < |w.pending|
      ensures w.active[i].item.file != w.pending[j].file
    {
      RunningFilesHas(w.active, i);
      ItemFilesHas(w.pending, j);
      assert ItemFiles(w.arrived)[w.active[i].item.file] <= 1;
    }
  }

  lemma FilesWithout(active: seq<Running>, i: nat)
    requires i < |active|
    requires forall a, b :: 0 <= a < b < |active| ==> active[a].item.file != active[b].item.file
    requires forall a, b :: 0 <= a < b < |active| ==> active[a].path != active[b].path
    ensures Files(Without(active, i)) == Files(active) - {active[i].item.file}
    ensures Paths(Without(active, i)) == Paths(active) - {active[i].path}
  {
    var t := Without(active, i);
    assert forall k :: 0 <= k < |t| ==> t[k] == active[if k < i then k else k + 1];
    assert forall k :: 0 <= k < |active| && k != i ==> active[k] == t[if k < i then k else k - 1];
  }

  /** A mailbox listing names each object once. */
  predicate Distinct(files: seq<(File, Arrival)>) {
    forall i, j :: 0 <= i < j < |files| ==> files[i].0 != files[j].0
  }

  predicate Before(listed: seq<(File, Arrival)>, x: (File, Arrival), y: (File, Arrival)) {
    forall a, b :: 0 <= a < |listed| && 0 <= b < |listed| && listed[a] == x && listed[b] == y ==> a < b
  }

  predicate InListOrder(names: seq<(File, Arrival)>, listed: seq<(File, Arrival)>) {
    forall i, j :: 0 <= i < j < |names| ==> Before(listed, names[i], names[j])
  }

  /** The requests of a listing that wait for a worker, in order. */
  function Transactions(files: seq<(File, Arrival)>): seq<Item> {
    if files == [] then []
    else
      var (file, arrival) := files[|files| - 1];
      Transactions(files[..|files| - 1]) + if arrival.Transaction? then [Item(file, arrival.key)] else []
  }

  lemma {:induction false} StillNew(arrived: seq<Item>, files: seq<(File, Arrival)>, k: nat)
    requires k < |files| && Distinct(files) && ItemFiles(arrived)[files[k].0] == 0
    ensures ItemFiles(arrived + Transactions(files[..k]))[files[k].0] == 0
  {
    NotAmong(files[..k], files[k].0);
    ItemFilesAppend(arrived, Transactions(files[..k]));
  }

  lemma {:induction false} NotAmong(files: seq<(File, Arrival)>, file: File)
    requires forall i :: 0 <= i < |files| ==> files[i].0 != file
    ensures ItemFiles(Transactions(files))[file] == 0
  {
    if files != [] {
      NotAmong(files[..|files| - 1], file);
      var (name, arrival) := files[|files| - 1];
      if arrival.Transaction? {
        CopiesAfter(Transactions(files[..|files| - 1]), Item(name, arrival.key));
      } else {
        assert Transactions(files) == Transactions(files[..|files| - 1]);
      }
    }
  }

  lemma AllSigned(limits: Limits, w: Watcher)
    requires QueueInv(limits, w) && w.pending == [] && w.active == []
    ensures multiset(w.signed) == ItemFiles(w.arrived)
  {
  }

  lemma DispatchGrows(limits: Limits, w: Watcher, route: Route)
    ensures w.dispatched <= DispatchOne(limits, w, route).dispatched && DispatchOne(limits, w, route).order == w.order
    ensures DispatchOne(limits, w, route).arrived == w.arrived
  {
  }

  class Loop {
    const limits: Limits
    const world: nat -> Route
    var round: nat
    var pending: seq<Item>
    var active: seq<Running>
    var order: seq<Key>
    var cursor: nat
    var repoKeys: set<Path>
    var txids: set<File>
    var signed: seq<File>
    ghost var arrived: seq<Item>
    ghost var departed: seq<Item>
    ghost var dispatched: seq<Key>
    ghost var trace: seq<Label>

    ghost function State(): Watcher
      reads this
    {
      Watcher(pending, active, order, cursor, signed, arrived, departed, dispatched)
    }

    ghost predicate Reached()
      reads this
    {
      AllLawful(limits, IDLE, trace) && State() == Exec(limits, IDLE, trace)
    }

    ghost predicate Valid()
      reads this
    {
      && limits.workers > 0 && limits.jobs > 0
      && Reached() && QueueInv(limits, State()) && OneCopyEach(arrived)
      && repoKeys == Paths(active) && txids == Files(active)
    }

    constructor (l: Limits, w: nat -> Route)
      requires l.workers > 0 && l.jobs > 0
      ensures Valid() && limits == l && trace == [] && fresh(this)
    {
      limits, world, round := l, w, 0;
      pending, active, order, cursor, repoKeys, txids, signed := [], [], [], 0, {}, {}, [];
      arrived, departed, dispatched, trace := [], [], [], [];
    }

    /** The scheduler's `submit`: refuses a path or a request already in flight. */
    method Submit(item: Item, path: Path) returns (accepted: bool)
      modifies this`repoKeys, this`txids
      ensures accepted <==> path !in old(repoKeys) && item.file !in old(txids)
      ensures repoKeys == if accepted then old(repoKeys) + {path} else old(repoKeys)
      ensures txids == if accepted then old(txids) + {item.file} else old(txids)
    {
      if path in repoKeys || item.file in txids {
        return false;
      }
      repoKeys := repoKeys + {path};
      txids := txids + {item.file};
      return true;
    }

    /** The inner loop of `dispatch_pending`. */
    method Survey(route: Route) returns (runnable: map<Key, (nat, Path)>, error: Option<nat>)
      requires repoKeys == Paths(active)
      ensures Look(pending, active, route, |pending|) == WatcherQueue.Survey(runnable, error)
    {
      var seen: set<Key> := {};
      runnable, error := map[], None;
      var k := 0;
      while k < |pending|
        invariant k <= |pending|
        invariant Look(pending, active, route, k) == WatcherQueue.Survey(runnable, error)
        invariant error.None? ==> seen == set i | 0 <= i < k :: pending[i].key
      {
        var item := pending[k];
        if error.None? && item.key !in seen {
          seen := seen + {item.key};
          assert First(pending, k);
          match route(item.file) {
            case None => error := Some(k);
            case Some(path) =>
              assert path in repoKeys <==> Busy(active, path);
              if path !in repoKeys {
                runnable := runnable[item.key := (k, path)];
              }
          }
        }
        k := k + 1;
      }
    }

    method NextTurn(keys: set<Key>) returns (offset: Option<nat>)
      requires OrderOk(Watcher(pending, active, order, cursor, [], [], [], []))
      ensures offset == Turn(order, cursor, keys, 0)
    {
      var o := 0;
      while o < |order|
        invariant o <= |order|
        invariant Turn(order, cursor, keys, 0) == Turn(order, cursor, keys, o)
      {
        if order[(cursor + o) % |order|] in keys {
          assert Ready(order, cursor, keys, o);
          return Some(o);
        }
        assert !Ready(order, cursor, keys, o);
        o := o + 1;
      }
      return None;
    }

    method FailRequest(i: nat)
      requires i < |pending|
      modifies this`pending, this`signed, this`departed
      ensures State() == Refuse(old(State()), i)
    {
      signed := signed + [pending[i].file];
      departed := departed + [pending[i]];
      pending := Without(pending, i);
    }

    /** Hand a request to a worker; the scheduler may refuse it. */
    method HandOver(pos: nat, i: nat, path: Path) returns (accepted: bool)
      requires i < |pending| && pos < |order|
      requires repoKeys == Paths(active) && txids == Files(active)
      modifies this`pending, this`active, this`cursor, this`repoKeys, this`txids, this`departed, this`dispatched
      ensures accepted <==> path !in old(repoKeys) && old(pending)[i].file !in old(txids)
      ensures accepted ==> State() == Start(old(State()), pos, i, path)
      ensures accepted ==> repoKeys == Paths(active) && txids == Files(active)
    {
      var item := pending[i];
      cursor := (pos + 1) % |order|;
      pending := Without(pending, i);
      accepted := Submit(item, path);
      if accepted {
        ghost var before := active;
        active := active + [Running(item, path)];
        departed := departed + [item];
        dispatched := dispatched + [item.key];
        FilesOneMore(before, Running(item, path));
      }
    }

    /** The key whose turn it is hands over its first request. */
    method TakeTurn(route: Route, runnable: map<Key, (nat, Path)>) returns (ok: bool)
      requires QueueInv(limits, State()) && OneCopyEach(arrived)
      requires repoKeys == Paths(active) && txids == Files(active)
      requires pending != [] && |active| < limits.workers && runnable.Keys != {}
      requires Look(pending, active, route, |pending|) == WatcherQueue.Survey(runnable, None)
      modifies this`pending, this`active, this`cursor, this`repoKeys, this`txids, this`departed, this`dispatched
      ensures ok && State() == DispatchOne(limits, old(State()), route)
      ensures |pending| + 1 == |old(pending)| && |active| == |old(active)| + 1
      ensures repoKeys == Paths(active) && txids == Files(active)
    {
      hide Look, Turn, OneCopyEach, DispatchOne, Paths, Files, QueueInv;
      ghost var w := State();
      TurnExists(limits, w, route);
      OrderHolds(limits, w);
      var offset := NextTurn(runnable.Keys);
      var pos := (cursor + offset.value) % |order|;
      var key := order[pos];
      RunnableIsFree(limits, w, route, key);
      StartsAt(limits, w, route, key);
      ok := HandOver(pos, runnable[key].0, runnable[key].1);
    }

    /** One round of the loop body; chosen is false when it would break, ok is false when it would raise. */
    method ChooseOne(route: Route) returns (chosen: bool, ok: bool)
      requires QueueInv(limits, State()) && OneCopyEach(arrived)
      requires repoKeys == Paths(active) && txids == Files(active)
      requires pending != [] && |active| < limits.workers
      modifies this`pending, this`active, this`cursor, this`repoKeys, this`txids, this`signed, this`departed, this`dispatched
      ensures ok && State() == DispatchOne(limits, old(State()), route)
      ensures repoKeys == Paths(active) && txids == Files(active) && old(signed) <= signed
      ensures chosen ==> |pending| + 1 == |old(pending)| && |pending| + |active| <= |old(pending)| + |old(active)|
      ensures !chosen ==> State() == old(State())
    {
      ghost var w := State();
      NothingChosen(limits, w, route);
      hide QueueInv, Look, OneCopyEach, DispatchOne, Paths, Files;
      var runnable, error := Survey(route);
      if error.Some? {
        FailRequest(error.value);
        return true, true;
      }
      if runnable.Keys == {} {
        return false, true;
      }
      TurnExists(limits, w, route);
      ok := order != [];
      var handed := TakeTurn(route, runnable);
      return true, ok && handed;
    }

    method DispatchRound(route: Route) returns (chosen: bool, ok: bool)
      requires Valid() && pending != [] && |active| < limits.workers
      modifies this`pending, this`active, this`cursor, this`repoKeys, this`txids, this`signed,
        this`departed, this`dispatched, this`trace
      ensures Valid() && ok && old(signed) <= signed
      ensures State() == DispatchOne(limits, old(State()), route)
      ensures chosen ==> |pending| + 1 == |old(pending)| && |pending| + |active| <= |old(pending)| + |old(active)|
      ensures !chosen ==> State() == old(State())
    {
      hide QueueInv, Exec, AllLawful, OneCopyEach, DispatchOne, Paths, Files;
      Step(Dispatch(route));
      chosen, ok := ChooseOne(route);
      trace := trace + [Dispatch(route)];
    }

    /** Nothing more can be handed over: nothing waits, every worker is taken, or the last look chose nothing. */
    ghost predicate Exhausted()
      reads this
    {
      || pending == [] || |active| >= limits.workers
      || (round > 0 && DispatchOne(limits, State(), world(round - 1)) == State())
    }

    /** `dispatch_pending`: it stops only when nothing more can be handed over, and never with all workers idle. */
    method DispatchPending() returns (ok: bool)
      requires Valid()
      modifies this
      ensures Valid() && ok && arrived == old(arrived) && order == old(order)
      ensures Exhausted() && (pending == [] || active != [])
      ensures old(signed) <= signed && old(dispatched) <= dispatched
      ensures |pending| + |active| <= |old(pending)| + |old(active)|
    {
      hide QueueInv, Exec, AllLawful, OneCopyEach, DispatchOne, Paths, Files;
      ok := true;
      while pending != [] && |active| < limits.workers
        invariant Valid() && ok && arrived == old(arrived) && order == old(order)
        invariant old(signed) <= signed && old(dispatched) <= dispatched
        invariant |pending| + |active| <= |old(pending)| + |old(active)|
        decreases |pending|
      {
        var route := world(round);
        round := round + 1;
        if active == [] {
          HeadCanLeave(limits, State(), route);
        }
        DispatchGrows(limits, State(), route);
        var chosen, good := DispatchRound(route);
        ok := ok && good;
        if !chosen {
          break;
        }
      }
    }

    /** A worker has ended: its result is signed locally, then its path and name are free again. */
    method FinishItem(i: nat)
      requires Valid() && i < |active|
      modifies this`active, this`signed, this`repoKeys, this`txids, this`trace
      ensures Valid() && active == Without(old(active), i) && |active| + 1 == |old(active)|
      ensures signed == old(signed) + [old(active)[i].item.file]
    {
      FilesApart(limits, State());
      assert OnePerPath(State());
      FilesWithout(active, i);
      Step(Reap(i));
      ReapApplied(limits, State(), i);
      hide *;
      var item := active[i];
      active := Without(active, i);
      repoKeys := repoKeys - {item.path};
      txids := txids - {item.item.file};
      signed := signed + [item.item.file];
      trace := trace + [Reap(i)];
    }

    /** `drain_one`: wait for the oldest worker; it raises when nothing runs. */
    method DrainOne() returns (ok: bool)
      requires Valid()
      modifies this
      ensures Valid() && (ok <==> old(active) != []) && arrived == old(arrived)
      ensures ok ==> Exhausted() && old(signed) + [old(active)[0].item.file] <= signed
      ensures !ok ==> State() == old(State())
      ensures pending == [] || active != [] || !ok
      ensures ok ==> |pending| + |active| < |old(pending)| + |old(active)|
    {
      hide QueueInv, Exec, AllLawful, OneCopyEach, Paths, Files;
      if active == [] {
        return false;
      }
      FinishItem(0);
      ok := DispatchPending();
    }

    method DrainAll() returns (ok: bool)
      requires Valid()
      modifies this
      ensures Valid() && ok && pending == [] && active == [] && arrived == old(arrived) && old(signed) <= signed
      ensures multiset(signed) == ItemFiles(arrived)
    {
      hide QueueInv, Exec, AllLawful, OneCopyEach, Paths, Files;
      ok := true;
      while pending != [] || active != []
        invariant Valid() && ok && arrived == old(arrived) && old(signed) <= signed
        decreases |pending| + |active|
      {
        var dispatched := DispatchPending();
        ok := ok && dispatched && (pending == [] || active != []);
        if active != [] {
          var drained := DrainOne();
          ok := ok && drained;
        } else {
          break;
        }
      }
      AllSigned(limits, State());
    }

    method Enqueue(item: Item)
      requires Valid() && |pending| + |active| < limits.jobs && ItemFiles(arrived)[item.file] == 0
      modifies this`pending, this`order, this`arrived, this`trace
      ensures Valid() && arrived == old(arrived) + [item]
    {
      hide QueueInv, Exec, AllLawful, OneCopyEach, Paths, Files, Apply, ItemFiles;
      ghost var w := State();
      Step(WatcherQueue.Enqueue(item));
      OneMoreCopy(arrived, item);
      EnqueueApplied(limits, w, item);
      if item.key !in order {
        order := order + [item.key];
      }
      pending := pending + [item];
      arrived := arrived + [item];
      trace := trace + [WatcherQueue.Enqueue(item)];
    }

    /** Names not yet owned or signed, each listed once. */
    ghost predicate NewNames(files: seq<(File, Arrival)>)
      reads this
    {
      Distinct(files) && forall i :: 0 <= i < |files| ==> ItemFiles(arrived)[files[i].0] == 0
    }

    /** `ingest_requests`: room is made before each download, and the transactions queue up in the order listed. */
    method Ingest(files: seq<(File, Arrival)>) returns (ok: bool)
      requires Valid() && NewNames(files)
      modifies this
      ensures Valid() && ok && arrived == old(arrived) + Transactions(files) && old(signed) <= signed
    {
      hide QueueInv, Exec, AllLawful, OneCopyEach, Paths, Files, ItemFiles, Exhausted;
      ok := true;
      for k := 0 to |files|
        invariant Valid() && ok && arrived == old(arrived) + Transactions(files[..k]) && old(signed) <= signed
      {
        var (file, arrival) := files[k];
        assert files[..k + 1][..k] == files[..k];
        StillNew(old(arrived), files, k);
        while |pending| + |active| >= limits.jobs
          invariant Valid() && ok && arrived == old(arrived) + Transactions(files[..k]) && old(signed) <= signed
          decreases |pending| + |active|
        {
          var dispatched := DispatchPending();
          ok := ok && dispatched;
          if |pending| + |active| < limits.jobs {
            break;
          }
          var drained := DrainOne();
          ok := ok && drained;
        }
        match arrival {
          case Gone =>
          case Immediate =>
          case Materialize =>
            var drained := DrainAll();
            ok := ok && drained;
          case Transaction(key) =>
            Enqueue(Item(file, key));
            var dispatched := DispatchPending();
            ok := ok && dispatched;
        }
      }
      assert files[..|files|] == files;
    }

    /** Every request of the listing that waits for a worker has been admitted. */
    ghost predicate AllAdmitted(listed: seq<(File, Arrival)>)
      reads this
    {
      forall i :: 0 <= i < |listed| && listed[i].1.Transaction? ==> ItemFiles(arrived)[listed[i].0] == 1
    }

    /**
    One round of the live loop.  It ends the loop only when nothing waits or runs; when a worker has ended it
    takes in nothing; otherwise every request then listed is admitted.
    */
    method Round(tick: Tick) returns (more: bool, ok: bool)
      requires Valid() && Distinct(tick.listed)
      modifies this
      ensures Valid() && ok && old(arrived) <= arrived && old(signed) <= signed
      ensures !more ==> pending == [] && active == [] && multiset(signed) == ItemFiles(arrived) && arrived == old(arrived)
      ensures old(pending) == [] && old(active) == [] ==> !more
      ensures more ==> AllAdmitted(tick.listed) || (arrived == old(arrived) && |signed| > |old(signed)|)
      ensures more && tick.finished == {} ==> AllAdmitted(tick.listed)
    {
      hide QueueInv, Exec, AllLawful, OneCopyEach, Paths, Files, ItemFiles, Exhausted;
      if pending == [] && active == [] {
        AllSigned(limits, State());
        return false, true;
      }
      ok := DispatchPending();
      var reaped := ReapFinished(tick.finished);
      if reaped {
        var dispatched := DispatchPending();
        return true, ok && dispatched;
      }
      ok := ok && (pending == [] || active != []);
      if active == [] {
        AllSigned(limits, State());
        return false, ok;
      }
      var names := FreshOnly(tick.listed);
      ghost var before := arrived;
      var ingested := Ingest(names);
      AdmittedNow(before, names, tick.listed);
      return true, ok && ingested;
    }

    lemma AdmittedNow(before: seq<Item>, names: seq<(File, Arrival)>, listed: seq<(File, Arrival)>)
      requires Valid() && arrived == before + Transactions(names)
      requires forall e :: e in names <==> e in listed && ItemFiles(before)[e.0] == 0
      ensures AllAdmitted(listed)
    {
      assert OneCopyEach(arrived);
      hide Valid, ItemFiles, OneCopyEach;
      ItemFilesAppend(before, Transactions(names));
      forall i | 0 <= i < |listed| && listed[i].1.Transaction?
        ensures ItemFiles(arrived)[listed[i].0] == 1
      {
        assert listed[i] in listed;
        if ItemFiles(before)[listed[i].0] == 0 {
          Among(names, listed[i]);
        }
        AtMostOnce(arrived, listed[i].0);
      }
    }

    /** The live loop: it ends before its rounds do only with everything that arrived signed. */
    method Watch(first: seq<(File, Arrival)>, ticks: seq<Tick>) returns (rounds: nat, ok: bool)
      requires Valid() && NewNames(first) && forall t :: 0 <= t < |ticks| ==> Distinct(ticks[t].listed)
      modifies this
      ensures Valid() && ok && old(arrived) + Transactions(first) <= arrived
      ensures rounds <= |ticks|
      ensures rounds < |ticks| ==> pending == [] && active == [] && multiset(signed) == ItemFiles(arrived)
    {
      hide QueueInv, Exec, AllLawful, OneCopyEach, Paths, Files, ItemFiles, Exhausted;
      ok := Ingest(first);
      rounds := 0;
      while rounds < |ticks|
        invariant rounds <= |ticks| && Valid() && ok && old(arrived) + Transactions(first) <= arrived
      {
        var more, good := Round(ticks[rounds]);
        ok := ok && good;
        if !more {
          break;
        }
        rounds := rounds + 1;
      }
    }

    /** Non-blocking reaping: every worker that has ended is finished and signed, and no other. */
    method ReapFinished(finished: set<File>) returns (any: bool)
      requires Valid()
      modifies this`active, this`signed, this`repoKeys, this`txids, this`trace
      ensures Valid() && any == (exists r :: r in old(active) && r.item.file in finished)
      ensures forall r :: r in active <==> r in old(active) && r.item.file !in finished
      ensures forall r :: r in old(active) && r.item.file in finished ==> r.item.file in signed
      ensures old(signed) <= signed && (any ==> |signed| > |old(signed)|) && (!any ==> active == old(active) && signed == old(signed))
    {
      hide QueueInv, Exec, AllLawful, OneCopyEach, Paths, Files;
      any := false;
      var i := 0;
      while i < |active|
        invariant i <= |active| && Valid() && old(signed) <= signed
        invariant any ==> |signed| > |old(signed)| && exists r :: r in old(active) && r.item.file in finished
        invariant !any ==> active == old(active) && signed == old(signed)
        invariant forall k :: 0 <= k < i ==> active[k].item.file !in finished
        invariant forall r :: r in active ==> r in old(active)
        invariant forall r :: r in old(active) && r !in active ==> r.item.file in finished && r.item.file in signed
        decreases |active| - i
      {
        if active[i].item.file in finished {
          ghost var before := active;
          FinishItem(i);
          WithoutMember(before, i);
          any := true;
        } else {
          i := i + 1;
        }
      }
    }

    /** Of the listed names those that never arrived, in the order listed; owned and signed ones are left out. */
    method FreshOnly(listed: seq<(File, Arrival)>) returns (names: seq<(File, Arrival)>)
      requires Valid() && Distinct(listed)
      ensures NewNames(names)
      ensures forall e :: e in names <==> e in listed && ItemFiles(arrived)[e.0] == 0
      ensures InListOrder(names, listed)
    {
      names := [];
      hide Valid, ItemFiles;
      for k := 0 to |listed|
        invariant NewNames(names)
        invariant forall e :: e in names <==> e in listed[..k] && ItemFiles(arrived)[e.0] == 0
        invariant InListOrder(names, listed)
      {
        var known := Owned(listed[k].0);
        assert forall e :: e in listed[..k] ==> e.0 != listed[k].0;
        assert listed[..k + 1] == listed[..k] + [listed[k]];
        forall i, a | 0 <= i < |names| && 0 <= a < |listed| && names[i] == listed[a]
          ensures a < k
        {
          assert names[i] in listed[..k];
        }
        if !known {
          names := names + [listed[k]];
        }
      }
      assert listed[..|listed|] == listed;
    }

    /** Waiting, running or signed: exactly the names that have arrived. */
    method Owned(file: File) returns (known: bool)
      requires Valid()
      ensures known <==> ItemFiles(arrived)[file] > 0
    {
      known := (exists i :: 0 <= i < |pending| && pending[i].file == file)
        || (exists i :: 0 <= i < |active| && active[i].item.file == file) || file in signed;
      ItemFilesMember(pending, file);
      RunningFilesMember(active, file);
    }

    /** What taking this step next would give. */
    lemma Step(l: Label)
      requires Valid() && Lawful(limits, State(), l)
      ensures AllLawful(limits, IDLE, trace + [l])
      ensures Exec(limits, IDLE, trace + [l]) == Apply(limits, State(), l)
      ensures QueueInv(limits, Apply(limits, State(), l))
    {
      ExecAppend(limits, IDLE, trace, l);
      WatcherQueue.ApplyKeepsInv(limits, State(), l);
    }
  }

  lemma OrderHolds(limits: Limits, w: Watcher)
    requires QueueInv(limits, w)
    ensures OrderOk(Watcher(w.pending, w.active, w.order, w.cursor, [], [], [], []))
  {
  }

  lemma TurnFound(w: Watcher, keys: set<Key>)
    requires OrderOk(Watcher(w.pending, w.active, w.order, w.cursor, [], [], [], []))
    requires keys != {} && forall key :: key in keys ==> key in w.order
    ensures Turn(w.order, w.cursor, keys, 0).Some?
    ensures Ready(w.order, w.cursor, keys, Turn(w.order, w.cursor, keys, 0).value)
  {
    var key :| key in keys;
    TurnComes(w, keys, key);
  }

  lemma FilesOneMore(active: seq<Running>, r: Running)
    ensures Files(active + [r]) == Files(active) + {r.item.file} && Paths(active + [r]) == Paths(active) + {r.path}
  {
    var t := active + [r];
    assert forall k :: 0 <= k < |active| ==> t[k] == active[k];
    assert t[|active|] == r;
  }

  /** A dispatch round with a failing first request, or with nothing to run. */
  lemma NothingChosen(limits: Limits, w: Watcher, route: Route)
    requires QueueInv(limits, w) && w.pending != [] && |w.active| < limits.workers
    ensures var s := Look(w.pending, w.active, route, |w.pending|);
      && (s.error.Some? ==> s.error.value < |w.pending| && DispatchOne(limits, w, route) == Refuse(w, s.error.value))
      && (s.error.None? && s.runnable.Keys == {} ==> DispatchOne(limits, w, route) == w)
  {
    LookFacts(w.pending, w.active, route, |w.pending|);
    hide Look, Turn;
    var s := Look(w.pending, w.active, route, |w.pending|);
    if s.error.None? && s.runnable.Keys == {} {
      assert forall m :: !Ready(w.order, w.cursor, s.runnable.Keys, m);
      assert Turn(w.order, w.cursor, s.runnable.Keys, 0).None?;
    }
  }

  /** A request that can run: neither its path nor its own name is in flight. */
  lemma RunnableIsFree(limits: Limits, w: Watcher, route: Route, key: Key)
    requires QueueInv(limits, w) && OneCopyEach(w.arrived)
    requires key in Look(w.pending, w.active, route, |w.pending|).runnable
    ensures var (i, path) := Look(w.pending, w.active, route, |w.pending|).runnable[key];
      i < |w.pending| && path !in Paths(w.active) && w.pending[i].file !in Files(w.active)
  {
    LookFacts(w.pending, w.active, route, |w.pending|);
    var (i, path) := Look(w.pending, w.active, route, |w.pending|).runnable[key];
    FilesApart(limits, w);
  }

  lemma TurnExists(limits: Limits, w: Watcher, route: Route)
    requires QueueInv(limits, w)
    requires Look(w.pending, w.active, route, |w.pending|).runnable.Keys != {}
    ensures Turn(w.order, w.cursor, Look(w.pending, w.active, route, |w.pending|).runnable.Keys, 0).Some?
    ensures w.order != []
  {
    RunnableIsOrdered(limits, w, route);
    OrderHolds(limits, w);
    TurnFound(w, Look(w.pending, w.active, route, |w.pending|).runnable.Keys);
  }

  lemma CopiesAfter(arrived: seq<Item>, item: Item)
    ensures ItemFiles(arrived + [item]) == ItemFiles(arrived) + multiset{item.file}
  {
    assert (arrived + [item])[..|arrived|] == arrived;
  }

  lemma OneMoreCopy(arrived: seq<Item>, item: Item)
    requires OneCopyEach(arrived) && ItemFiles(arrived)[item.file] == 0
    ensures OneCopyEach(arrived + [item])
  {
    CopiesAfter(arrived, item);
    forall f: File
      ensures ItemFiles(arrived + [item])[f] <= 1
    {
      assert ItemFiles(arrived)[f] <= 1;
    }
  }

  lemma ReapApplied(limits: Limits, w: Watcher, i: nat)
    requires i < |w.active|
    ensures Apply(limits, w, Reap(i)) ==
      w.(active := Without(w.active, i), signed := w.signed + [w.active[i].item.file])
    ensures |Without(w.active, i)| + 1 == |w.active|
  {
  }

  lemma EnqueueApplied(limits: Limits, w: Watcher, item: Item)
    ensures Apply(limits, w, WatcherQueue.Enqueue(item)) ==
      w.(pending := w.pending + [item], order := if item.key in w.order then w.order else w.order + [item.key],
         arrived := w.arrived + [item])
  {
  }

  lemma {:induction false} ItemFilesMember(s: seq<Item>, file: File)
    ensures ItemFiles(s)[file] > 0 <==> exists i :: 0 <= i < |s| && s[i].file == file
  {
    if s != [] {
      var rest := s[..|s| - 1];
      ItemFilesMember(rest, file);
      assert forall i :: 0 <= i < |rest| ==> rest[i] == s[i];
    }
  }

  lemma {:induction false} RunningFilesMember(s: seq<Running>, file: File)
    ensures RunningFiles(s)[file] > 0 <==> exists i :: 0 <= i < |s| && s[i].item.file == file
  {
    if s != [] {
      var rest := s[..|s| - 1];
      RunningFilesMember(rest, file);
      assert forall i :: 0 <= i < |rest| ==> rest[i] == s[i];
    }
  }

  lemma WithoutMember(s: seq<Running>, i: nat)
    requires i < |s|
    ensures forall r :: r in s <==> r in Without(s, i) || r == s[i]
  {
    assert s == s[..i] + [s[i]] + s[i + 1..];
  }

  lemma {:induction false} Among(files: seq<(File, Arrival)>, e: (File, Arrival))
    requires e in files && e.1.Transaction?
    ensures ItemFiles(Transactions(files))[e.0] >= 1
  {
    var last := files[|files| - 1];
    var rest := files[..|files| - 1];
    if last.1.Transaction? {
      CopiesAfter(Transactions(rest), Item(last.0, last.1.key));
    }
    if e != last {
      assert e in rest;
      Among(rest, e);
      if !last.1.Transaction? {
        assert Transactions(files) == Transactions(rest);
      }
    }
  }

  lemma AtMostOnce(arrived: seq<Item>, file: File)
    requires OneCopyEach(arrived)
    ensures ItemFiles(arrived)[file] <= 1
  {
  }
}
