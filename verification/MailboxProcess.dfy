/**
One mailbox cycle as it runs.  Before every remote operation other parties may act; how uploads and
deletes end is decided by the environment.  `trace` is a ghost record of the steps taken: `Valid` says
the fields are what these steps produce, so all that is proved of `MailboxReplay` holds at any moment.
*/
module MailboxProcess {
  import opened Prelude
  import opened MailboxReplay

  /** Steps other parties can take: send a request, touch the results, a late write landing. */
  predicate Foreign(l: Label) {
    l.Request? || l.Tamper? || l.LandUpload? || l.LandDelete?
  }

  lemma {:induction false} ExecLast(s: Sys, labels: seq<Label>, l: Label)
    ensures Exec(s, labels + [l]) == Apply(Exec(s, labels), l)
    decreases |labels|
  {
    if labels == [] {
      assert labels + [l] == [l] && [l][1..] == [];
    } else {
      assert (labels + [l])[1..] == labels[1..] + [l];
      ExecLast(Apply(s, labels[0]), labels[1..], l);
    }
  }

  datatype Publication = Published | Deferred | Raised

  /** What stood in the results directory when this step of the trace was taken. */
  ghost function ObjectAt(trace: seq<Label>, n: nat, f: File): Option<Answer>
    requires n <= |trace|
  {
    var remote := Exec(INITIAL, trace[..n]).remote;
    if f in remote then Some(remote[f]) else None
  }

  lemma SameObject(before: seq<Label>, after: seq<Label>, n: nat, f: File)
    requires before <= after && n <= |before|
    ensures ObjectAt(before, n, f) == ObjectAt(after, n, f)
  {
    assert before[..n] == after[..n];
  }

  /** What becomes of a durable local result, by the remote object seen and how an upload would end. */
  function Sent(f: File, found: Option<Answer>, tooFresh: bool, upload: Outcome): Publication {
    if found.Some? then if found.value.Signed? && found.value.file == f then Published else Raised
    else if tooFresh then Deferred
    else if upload == Done then Published
    else Raised
  }

  /** What becomes of a request without a result, by whether it can be fetched and how the upload ends. */
  function Handled(fetched: bool, upload: Outcome): Publication {
    if !fetched then Deferred else if upload == Done then Published else Raised
  }

  class Watcher {
    const others: nat -> seq<Label>
    const outcomes: nat -> Outcome
    const available: nat -> bool
    var clock: nat
    var inbox: set<File>
    var remote: map<File, Answer>
    var lateUploads: set<(File, Answer)>
    var lateDeletes: set<File>
    var reached: set<Answer>
    var local: map<File, Answer>
    var markers: set<File>
    var executions: nat
    ghost var stages: map<File, Stage>
    ghost var runs: seq<File>
    ghost var persisted: map<File, Answer>
    ghost var trace: seq<Label>

    ghost function State(): Sys
      reads this
    {
      Sys(inbox, remote, lateUploads, lateDeletes, local, markers, stages, runs, persisted, reached)
    }

    ghost predicate Valid()
      reads this
    {
      State() == Exec(INITIAL, trace) && executions == |runs| && ReplayInv(State())
    }

    constructor (o: nat -> seq<Label>, e: nat -> Outcome, a: nat -> bool)
      ensures Valid() && trace == [] && stages == map[]
    {
      others, outcomes, available, clock := o, e, a, 0;
      inbox, remote, lateUploads, lateDeletes, reached := {}, map[], {}, {}, {};
      local, markers, executions := map[], {}, 0;
      stages, runs, persisted, trace := map[], [], map[], [];
    }

    /** Requests without a marker are still in the inbox. */
    ghost predicate KeepsUnmarked(before: set<File>)
      reads this
    {
      forall f :: f in before && f !in markers ==> f in inbox
    }

    lemma Step(l: Label)
      requires Valid()
      ensures Exec(INITIAL, trace + [l]) == Apply(State(), l) && ReplayInv(Apply(State(), l))
    {
      ExecLast(INITIAL, trace, l);
      ApplyKeepsInv(State(), l);
    }

    /** What other parties do before the next remote operation. */
    method Outside()
      requires Valid()
      modifies this`clock, this`inbox, this`remote, this`reached, this`trace
      ensures Valid() && KeepsUnmarked(old(inbox)) && clock == old(clock) + 1 && old(trace) <= trace
    {
      var labels := others(clock);
      clock := clock + 1;
      for k := 0 to |labels|
        invariant Valid() && KeepsUnmarked(old(inbox)) && clock == old(clock) + 1 && old(trace) <= trace
      {
        OutsideStep(labels[k]);
      }
    }

    method OutsideStep(l: Label)
      requires Valid()
      modifies this`inbox, this`remote, this`reached, this`trace
      ensures Valid() && KeepsUnmarked(old(inbox)) && old(trace) <= trace
    {
      if !Foreign(l) {
        return;
      }
      LateDeletesMarked(State());
      Step(l);
      ForeignApplied(State(), l);
      hide ReplayInv, Exec, Apply;
      trace := trace + [l];
      match l {
        case Request(f) => inbox := inbox + {f};
        case Tamper(f, None) => remote := remote - {f};
        case Tamper(f, Some(r)) =>
          if r.Forged? || r in reached {
            remote := remote[f := r];
          }
        case LandUpload(f, r) =>
          if (f, r) in lateUploads {
            remote := remote[f := r];
            reached := reached + {r};
          }
        case LandDelete(f) =>
          if f in lateDeletes {
            inbox := inbox - {f};
          }
      }
    }

    /** `upload_control_json`: ok is false when it raises, whatever has landed. */
    method UploadResult(f: File, r: Answer) returns (ok: bool)
      requires Valid() && Is(State(), f, Durable(r))
      modifies this`clock, this`inbox, this`remote, this`lateUploads, this`reached, this`stages, this`trace
      ensures Valid() && KeepsUnmarked(old(inbox)) && clock == old(clock) + 1 && old(trace) <= trace
      ensures ok == (outcomes(clock) == Done) && (ok ==> f in remote && remote[f] == r && r in reached)
      ensures stages == if ok then old(stages)[f := Acknowledged] else old(stages) - {f}
    {
      hide ReplayInv, Exec, Apply;
      Outside();
      ok := Put(f, r, outcomes(clock));
    }

    method Put(f: File, r: Answer, outcome: Outcome) returns (ok: bool)
      requires Valid() && Is(State(), f, Durable(r))
      modifies this`remote, this`lateUploads, this`reached, this`stages, this`trace
      ensures Valid() && ok == (outcome == Done) && old(trace) <= trace
      ensures ok ==> f in remote && remote[f] == r && r in reached
      ensures stages == if ok then old(stages)[f := Acknowledged] else old(stages) - {f}
    {
      Step(Upload(f, outcome));
      UploadApplied(State(), f, r, outcome);
      hide ReplayInv, Exec, Apply;
      trace := trace + [Upload(f, outcome)];
      match outcome {
        case Done =>
          remote, reached, stages := remote[f := r], reached + {r}, stages[f := Acknowledged];
        case Unreported =>
          remote, reached, stages := remote[f := r], reached + {r}, stages - {f};
        case Lost =>
          stages := stages - {f};
        case Late =>
          lateUploads, stages := lateUploads + {(f, r)}, stages - {f};
      }
      ok := outcome == Done;
    }

    method MarkPublished(f: File)
      requires Valid() && Is(State(), f, Acknowledged)
      modifies this`markers, this`stages, this`trace
      ensures Valid() && markers == old(markers) + {f} && stages == old(stages)[f := Marked] && old(trace) <= trace
    {
      Step(Mark(f));
      hide ReplayInv, Exec;
      markers := markers + {f};
      stages := stages[f := Marked];
      trace := trace + [Mark(f)];
    }

    /** `_cleanup_remote_request` never raises; the object may stay, or go later. */
    method CleanupRemoteRequest(f: File)
      requires Valid() && Is(State(), f, Marked)
      modifies this`clock, this`inbox, this`remote, this`lateDeletes, this`reached, this`stages, this`trace
      ensures Valid() && stages == old(stages) - {f} && KeepsUnmarked(old(inbox))
      ensures clock == old(clock) + 1 && old(trace) <= trace
      ensures outcomes(clock) == Done || outcomes(clock) == Unreported ==> f !in inbox
      ensures outcomes(clock) == Late ==> f in lateDeletes
    {
      MarkedHolds(State(), f);
      hide ReplayInv, Exec, Apply;
      Outside();
      var outcome := outcomes(clock);
      Step(Delete(f, outcome));
      DeleteApplied(State(), f, outcome);
      trace := trace + [Delete(f, outcome)];
      stages := stages - {f};
      match outcome {
        case Lost =>
        case Late => lateDeletes := lateDeletes + {f};
        case _ => inbox := inbox - {f};
      }
    }

    /** `_prune_local_results`: marked results go, and only they, until the excess is gone or none is left. */
    method PruneLocalResults(limit: nat)
      requires Valid()
      modifies this`local, this`trace
      ensures Valid()
      ensures forall f :: f in old(local) && f !in local ==> f in markers
      ensures forall f :: f in local ==> f in old(local) && local[f] == old(local)[f]
      ensures |local| >= |old(local)| || |local| >= limit
      ensures limit >= 1 && |old(local)| > limit ==> |local| == limit || forall f :: f in local ==> f !in markers
      ensures old(trace) <= trace
    {
      var excess := |local| - limit;
      if limit < 1 || excess <= 0 {
        return;
      }
      var todo, deleted := local.Keys, 0;
      while todo != {} && deleted < excess
        invariant Valid() && todo <= local.Keys && 0 <= deleted <= excess && old(trace) <= trace
        invariant forall f :: f in local && f !in todo ==> f !in markers
        invariant |local| == |old(local)| - deleted
        invariant forall f :: f in old(local) && f !in local ==> f in markers
        invariant forall f :: f in local ==> f in old(local) && local[f] == old(local)[f]
        decreases |todo|
      {
        hide ReplayInv, Exec, Apply;
        var f :| f in todo;
        todo := todo - {f};
        if f in markers {
          PruneOne(f);
          deleted := deleted + 1;
        }
      }
    }

    method PruneOne(f: File)
      requires Valid() && f in markers && f in local
      modifies this`local, this`trace
      ensures Valid() && local == old(local) - {f} && |local| == |old(local)| - 1 && old(trace) <= trace
    {
      Step(Prune(f));
      hide ReplayInv, Exec;
      trace := trace + [Prune(f)];
      assert local.Keys == (local - {f}).Keys + {f};
      local := local - {f};
    }

    /** `_publish_and_cleanup_result`: when the upload raises, the durable result stays. */
    method PublishAndCleanup(f: File, limit: nat) returns (p: Publication)
      requires Valid() && f in stages && stages[f].Durable? && f in local && local[f] == stages[f].result
      modifies this`clock, this`inbox, this`remote, this`lateUploads, this`lateDeletes, this`reached, this`local,
        this`markers, this`stages, this`trace
      ensures Valid() && stages == old(stages) - {f} && KeepsUnmarked(old(inbox))
      ensures (p == Published ==> f in markers) && p != Deferred && clock > old(clock) && old(trace) <= trace
      ensures p == Published <==> outcomes(old(clock) + 1) == Done
      ensures p == Raised ==> local == old(local) && markers == old(markers)
      ensures forall g :: g in old(local) && g !in local ==> g in markers
      ensures old(markers) <= markers <= old(markers) + {f}
      ensures forall g :: g in local ==> g in old(local)
    {
      hide ReplayInv, Exec, Apply;
      var ok := UploadResult(f, local[f]);
      if !ok {
        return Raised;
      }
      Retirement(f, limit);
      return Published;
    }

    /** The remote acknowledgement is looked at once, after whatever other parties did before. */
    method Glance(f: File, tooFresh: bool) returns (found: Option<Answer>, ghost looked: nat)
      requires Valid() && Waiting(State(), f) && f in local
      modifies this`clock, this`inbox, this`remote, this`reached, this`stages, this`trace
      ensures Valid() && KeepsUnmarked(old(inbox)) && clock == old(clock) + 1 && old(trace) <= trace
      ensures |old(trace)| <= looked < |trace| && trace[looked] == Look(f, tooFresh) && found == ObjectAt(trace, looked, f)
      ensures stages ==
        if found.Some? then if Authentic(f, found.value) then old(stages)[f := Acknowledged] else old(stages)
        else if tooFresh then old(stages)
        else old(stages)[f := Durable(local[f])]
    {
      hide ReplayInv, Exec, Apply;
      Outside();
      looked := |trace|;
      Step(Look(f, tooFresh));
      LookApplied(State(), f, tooFresh);
      ghost var before := trace;
      trace := trace + [Look(f, tooFresh)];
      assert trace[..looked] == before;
      found := if f in remote then Some(remote[f]) else None;
      if found.Some? {
        stages := if Authentic(f, found.value) then stages[f := Acknowledged] else stages;
      } else if !tooFresh {
        stages := stages[f := Durable(local[f])];
      }
    }

    /** `_publish_local_result`: nothing is uploaded before the remote acknowledgement has been looked at. */
    method PublishLocalResult(f: File, tooFresh: bool, limit: nat) returns (p: Publication, ghost looked: nat)
      requires Valid() && Waiting(State(), f) && f in local
      modifies this`clock, this`inbox, this`remote, this`lateUploads, this`lateDeletes, this`reached, this`local,
        this`markers, this`stages, this`trace
      ensures Valid() && stages == old(stages) && KeepsUnmarked(old(inbox)) && old(trace) <= trace && clock > old(clock)
      ensures p == Published ==> f in markers
      ensures p != Published ==> markers == old(markers) && local == old(local)
      ensures old(markers) <= markers <= old(markers) + {f}
      ensures forall g :: g in local ==> g in old(local)
      ensures forall g :: g in old(local) && g !in local ==> g in markers
      ensures |old(trace)| <= looked < |trace| && trace[looked] == Look(f, tooFresh)
      ensures p == Sent(f, ObjectAt(trace, looked, f), tooFresh, outcomes(old(clock) + 2))
      ensures ObjectAt(trace, looked, f).None? && !tooFresh ==> clock >= old(clock) + 2
    {
      hide ReplayInv, Exec, Apply, ObjectAt;
      var found, at := Glance(f, tooFresh);
      looked := at;
      ghost var before := trace;
      p := Act(f, found, tooFresh, limit);
      SameObject(before, trace, looked, f);
    }

    method Act(f: File, found: Option<Answer>, tooFresh: bool, limit: nat) returns (p: Publication)
      requires Valid()
      requires found.Some? && Authentic(f, found.value) ==> Is(State(), f, Acknowledged)
      requires found.None? && !tooFresh ==> f in local && Is(State(), f, Durable(local[f]))
      modifies this`clock, this`inbox, this`remote, this`lateUploads, this`lateDeletes, this`reached, this`local,
        this`markers, this`stages, this`trace
      ensures Valid() && KeepsUnmarked(old(inbox)) && old(trace) <= trace && clock >= old(clock)
      ensures p == Sent(f, found, tooFresh, outcomes(old(clock) + 1)) && (found.None? && !tooFresh ==> clock > old(clock))
      ensures stages == if (found.Some? && Authentic(f, found.value)) || (found.None? && !tooFresh) then old(stages) - {f} else old(stages)
      ensures p == Published ==> f in markers
      ensures p != Published ==> markers == old(markers) && local == old(local)
      ensures old(markers) <= markers <= old(markers) + {f}
      ensures forall g :: g in local ==> g in old(local)
      ensures forall g :: g in old(local) && g !in local ==> g in markers
    {
      hide ReplayInv, Exec, Apply;
      if found.Some? {
        if !Authentic(f, found.value) {
          return Raised;
        }
        Retirement(f, limit);
        return Published;
      }
      if tooFresh {
        return Deferred;
      }
      p := PublishAndCleanup(f, limit);
    }

    /** Marker first, then the remote request, then the local cache. */
    method Retirement(f: File, limit: nat)
      requires Valid() && Is(State(), f, Acknowledged)
      modifies this`clock, this`inbox, this`remote, this`lateUploads, this`lateDeletes, this`reached, this`local,
        this`markers, this`stages, this`trace
      ensures Valid() && stages == old(stages) - {f} && KeepsUnmarked(old(inbox))
      ensures markers == old(markers) + {f} && clock == old(clock) + 1 && old(trace) <= trace
      ensures forall g :: g in old(local) && g !in local ==> g in markers
      ensures forall g :: g in local ==> g in old(local)
    {
      hide ReplayInv, Exec, Apply;
      MarkPublished(f);
      CleanupRemoteRequest(f);
      PruneLocalResults(limit);
    }

    method RunRequest(f: File) returns (result: Answer)
      requires Valid() && Is(State(), f, Chosen)
      modifies this`executions, this`runs, this`stages, this`trace
      ensures Valid() && runs == old(runs) + [f] && stages == old(stages)[f := Ran(result)]
      ensures result == Signed(f, |old(runs)|) && old(trace) <= trace
    {
      Step(Run(f));
      hide ReplayInv, Exec;
      result := Signed(f, executions);
      executions := executions + 1;
      runs := runs + [f];
      stages := stages[f := Ran(result)];
      trace := trace + [Run(f)];
    }

    /** `_persist_signed_result`: nothing is uploaded before this. */
    method PersistSigned(f: File, result: Answer)
      requires Valid() && Is(State(), f, Ran(result))
      modifies this`stages, this`local, this`persisted, this`trace
      ensures Valid() && local == old(local)[f := result] && stages == old(stages)[f := Durable(result)]
      ensures persisted == old(persisted)[f := result] && old(trace) <= trace
    {
      Step(Persist(f));
      hide ReplayInv, Exec;
      local := local[f := result];
      persisted := persisted[f := result];
      stages := stages[f := Durable(result)];
      trace := trace + [Persist(f)];
    }

    /** Download, unless the provider fails for now. */
    method Fetch(f: File) returns (got: bool)
      requires Valid() && Waiting(State(), f) && f !in local
      modifies this`clock, this`inbox, this`remote, this`reached, this`stages, this`trace
      ensures Valid() && KeepsUnmarked(old(inbox))
      ensures stages == if got then old(stages)[f := Chosen] else old(stages)
      ensures clock == old(clock) + 1 && got == available(clock) && old(trace) <= trace
    {
      Step(Choose(f));
      hide ReplayInv, Exec;
      stages := stages[f := Chosen];
      trace := trace + [Choose(f)];
      Outside();
      got := available(clock);
      if !got {
        Step(Skip(f));
        stages := stages - {f};
        trace := trace + [Skip(f)];
      }
    }

    /** A request that has neither a marker nor a durable result is run; its result is durable before any upload. */
    method Process(f: File, limit: nat) returns (p: Publication)
      requires Valid() && Waiting(State(), f) && f !in local
      modifies this
      ensures Valid() && stages == old(stages) && KeepsUnmarked(old(inbox))
      ensures p == Published ==> f in markers
      ensures if p == Deferred then runs == old(runs) else runs == old(runs) + [f] && (f in local || f in markers)
      ensures clock > old(clock) && old(trace) <= trace && (p != Deferred ==> clock >= old(clock) + 2)
      ensures p == Handled(available(old(clock) + 1), outcomes(old(clock) + 2))
      ensures p != Deferred ==> f in persisted && persisted[f] == Signed(f, |old(runs)|)
      ensures old(markers) <= markers <= old(markers) + {f}
      ensures forall g :: g in local ==> g in old(local) || g == f
      ensures forall g :: g in old(local) && g !in local ==> g in markers
    {
      hide ReplayInv, Exec, Apply;
      var got := Fetch(f);
      if !got {
        return Deferred;
      }
      p := RunAndPublish(f, limit);
    }

    method RunAndPublish(f: File, limit: nat) returns (p: Publication)
      requires Valid() && Is(State(), f, Chosen) && f !in local
      modifies this
      ensures Valid() && stages == old(stages) - {f} && KeepsUnmarked(old(inbox)) && old(trace) <= trace
      ensures clock > old(clock) && p == if outcomes(old(clock) + 1) == Done then Published else Raised
      ensures runs == old(runs) + [f] && f in persisted && persisted[f] == Signed(f, |old(runs)|)
      ensures (f in local || f in markers) && (p == Published ==> f in markers)
      ensures old(markers) <= markers <= old(markers) + {f}
      ensures forall g :: g in local ==> g in old(local) || g == f
      ensures forall g :: g in old(local) && g !in local ==> g in markers
    {
      hide ReplayInv, Exec, Apply;
      var result := RunRequest(f);
      PersistSigned(f, result);
      p := PublishAndCleanup(f, limit);
    }

    /** `_classify_transaction_mailbox`: a valid marker is the only thing that makes a request published. */
    method Classify(poll: seq<File>) returns (candidates: seq<File>, published: seq<File>)
      requires NoDuplicates(poll)
      ensures NoDuplicates(candidates) && (forall f :: f in candidates <==> f in poll && f !in markers)
      ensures forall f :: f in published <==> f in poll && f in markers
      ensures candidates == [] ==> published == poll
    {
      candidates, published := [], [];
      for k := 0 to |poll|
        invariant NoDuplicates(candidates)
        invariant forall f :: f in candidates <==> f in poll[..k] && f !in markers
        invariant forall f :: f in published <==> f in poll[..k] && f in markers
        invariant candidates == [] ==> published == poll[..k]
      {
        assert poll[..k + 1] == poll[..k] + [poll[k]];
        assert poll[k] !in poll[..k];
        if poll[k] in markers {
          published := published + [poll[k]];
        } else {
          candidates := candidates + [poll[k]];
        }
      }
      assert poll[..|poll|] == poll;
    }

    method IdleMaintenance(f: File)
      requires Valid() && f in markers && stages == map[]
      modifies this
      ensures Valid() && stages == map[] && clock == old(clock) + 1
      ensures runs == old(runs)
      ensures outcomes(clock) == Done || outcomes(clock) == Unreported ==> f !in inbox
    {
      hide ReplayInv, Exec;
      Outside();
      var outcome := outcomes(clock);
      Step(Retire(f, outcome));
      RetireApplied(State(), f, outcome);
      hide Apply;
      trace := trace + [Retire(f, outcome)];
      if f in inbox {
        match outcome {
          case Lost =>
          case Late => lateDeletes := lateDeletes + {f};
          case _ => inbox := inbox - {f};
        }
      }
    }

    // What can keep a poll from publishing or running something, since a clock reading or a step of the trace.

    ghost predicate UploadFailed(since: nat)
      reads this
    {
      exists n :: since < n <= clock && outcomes(n) != Done
    }

    ghost predicate FetchFailed(since: nat)
      reads this
    {
      exists n :: since < n <= clock && !available(n)
    }

    ghost predicate ForgedSeen(since: nat)
      reads this
    {
      exists m, f :: since <= m < |trace| && Glanced(trace, m, f) && ObjectAt(trace, m, f).Some? && !Authentic(f, ObjectAt(trace, m, f).value)
    }

    ghost predicate LeftRecent(f: File, since: nat)
      reads this
    {
      exists m :: since <= m < |trace| && Glanced(trace, m, f) && ObjectAt(trace, m, f).None?
    }

    /** Durable results of unmarked requests are published first; the others wait to be run. */
    method Republish(candidates: seq<File>, limit: nat, tooFresh: bool) returns (raised: bool, pending: seq<File>)
      requires Valid() && stages == map[] && NoDuplicates(candidates)
      requires forall f :: f in candidates ==> f in inbox && f !in markers
      modifies this`clock, this`inbox, this`remote, this`lateUploads, this`lateDeletes, this`reached, this`local,
        this`markers, this`stages, this`trace
      ensures Valid() && stages == map[] && clock >= old(clock) && old(trace) <= trace && old(markers) <= markers
      ensures NoDuplicates(pending)
      ensures forall f :: f in pending ==> f in candidates && f in inbox && f !in markers && f !in local && f !in old(local)
      ensures !raised ==> forall f :: f in candidates ==>
        if f in old(local) then f in markers || (tooFresh && LeftRecent(f, |old(trace)|)) else f in pending
      ensures raised ==> UploadFailed(old(clock)) || ForgedSeen(|old(trace)|)
    {
      hide ReplayInv, Exec, Apply, ObjectAt;
      pending := [];
      for k := 0 to |candidates|
        invariant Valid() && stages == map[] && clock >= old(clock) && old(trace) <= trace && old(markers) <= markers
        invariant forall f :: f in old(local) && f !in local ==> f in markers
        invariant forall f :: f in local ==> f in old(local)
        invariant forall i :: k <= i < |candidates| ==> candidates[i] in inbox && candidates[i] !in markers
        invariant NoDuplicates(pending) && forall f :: f in pending ==> f in candidates[..k] && f in inbox && f !in markers && f !in local
        invariant forall f :: f in candidates[..k] ==>
          if f in old(local) then f in markers || (tooFresh && LeftRecent(f, |old(trace)|)) else f in pending
      {
        var f := candidates[k];
        assert candidates[..k + 1] == candidates[..k] + [f];
        assert forall g :: g in pending ==> g != f;
        if f in local {
          ghost var before, start := trace, clock;
          var p, looked := PublishLocalResult(f, tooFresh, limit);
          StillRecent(before, trace, |old(trace)|);
          assert Glanced(trace, looked, f);
          if p == Raised {
            return true, pending;
          }
        } else {
          pending := pending + [f];
        }
      }
      assert candidates[..|candidates|] == candidates;
      return false, pending;
    }

    /** The requests without a result, one after another; one that cannot be fetched is skipped. */
    method RunPending(pending: seq<File>, limit: nat) returns (raised: bool, ghost ran: seq<File>, ghost skipped: set<File>)
      requires Valid() && stages == map[] && NoDuplicates(pending)
      requires forall f :: f in pending ==> f in inbox && f !in markers && f !in local
      modifies this
      ensures Valid() && stages == map[] && clock >= old(clock) && old(trace) <= trace && old(markers) <= markers
      ensures runs == old(runs) + ran && NoDuplicates(ran)
      ensures forall f :: f in ran ==> f in pending && (f in local || f in markers)
      ensures !raised ==> forall f :: f in pending ==> f in ran || f in skipped
      ensures skipped != {} ==> FetchFailed(old(clock))
      ensures raised ==> UploadFailed(old(clock))
    {
      hide ReplayInv, Exec, Apply;
      ran, skipped := [], {};
      for k := 0 to |pending|
        invariant Valid() && stages == map[] && clock >= old(clock) && old(trace) <= trace && old(markers) <= markers
        invariant runs == old(runs) + ran && NoDuplicates(ran)
        invariant forall f :: f in ran ==> f in pending[..k] && (f in local || f in markers)
        invariant forall f :: f in pending[..k] ==> f in ran || f in skipped
        invariant skipped != {} ==> FetchFailed(old(clock))
        invariant forall i :: k <= i < |pending| ==> pending[i] in inbox && pending[i] !in markers && pending[i] !in local
      {
        assert pending[..k + 1] == pending[..k] + [pending[k]];
        ghost var start := clock;
        var p := Process(pending[k], limit);
        if p == Deferred {
          skipped := skipped + {pending[k]};
        } else {
          ran := ran + [pending[k]];
        }
        if p == Raised {
          return true, ran, skipped;
        }
      }
      assert pending[..|pending|] == pending;
      return false, ran, skipped;
    }

    /**
    `process_pending_once`, one worker.  Unless it raises, every polled request is then marked, has a durable
    result too recent to be sent again, or has run now, except one that could not be fetched.
    */
    method ProcessPendingOnce(poll: seq<File>, limit: nat, tooFresh: bool)
      returns (raised: bool, ghost ran: seq<File>, ghost skipped: set<File>)
      requires Valid() && stages == map[] && NoDuplicates(poll) && forall f :: f in poll ==> f in inbox
      modifies this
      ensures Valid() && stages == map[]
      ensures runs == old(runs) + ran && NoDuplicates(ran)
      ensures forall f :: f in ran ==> f in poll && f !in old(markers) && f !in old(local) && (f in local || f in markers)
      ensures !raised ==> forall f :: f in poll && f !in old(markers) ==>
        if f in old(local) then f in markers || (tooFresh && LeftRecent(f, |old(trace)|)) else f in ran || f in skipped
      ensures skipped != {} ==> FetchFailed(old(clock))
      ensures raised ==> UploadFailed(old(clock)) || ForgedSeen(|old(trace)|)
      ensures poll != [] && (forall f :: f in poll ==> f in old(markers)) ==>
        outcomes(old(clock) + 1) == Done || outcomes(old(clock) + 1) == Unreported ==> poll[0] !in inbox
    {
      hide ReplayInv, Exec, Apply, ObjectAt;
      ran, skipped := [], {};
      var candidates, published := Classify(poll);
      if candidates == [] {
        if published != [] {
          assert published[0] in published;
          IdleMaintenance(published[0]);
          PruneLocalResults(limit);
        }
        return false, ran, skipped;
      }
      assert candidates[0] in poll && candidates[0] !in markers;
      var halted, pending := Republish(candidates, limit, tooFresh);
      if halted {
        return true, ran, skipped;
      }
      ghost var before := trace;
      raised, ran, skipped := RunPending(pending, limit);
      StillRecent(before, trace, |old(trace)|);
    }
  }

  /** This step of the trace looked at the request's remote object. */
  predicate Glanced(trace: seq<Label>, m: nat, f: File)
    requires m < |trace|
  {
    trace[m].Look? && trace[m].file == f
  }

  /** What was seen stays on record. */
  lemma StillRecent(before: seq<Label>, after: seq<Label>, since: nat)
    requires before <= after
    ensures forall m, f :: since <= m < |before| && Glanced(before, m, f) ==>
      Glanced(after, m, f) && ObjectAt(after, m, f) == ObjectAt(before, m, f)
  {
    hide ObjectAt;
    forall m, f | since <= m < |before| && Glanced(before, m, f)
      ensures Glanced(after, m, f) && ObjectAt(after, m, f) == ObjectAt(before, m, f)
    {
      SameObject(before, after, m, f);
    }
  }

  lemma ForeignApplied(s: Sys, l: Label)
    requires Foreign(l)
    ensures Apply(s, l) == match l
      case Request(f) => s.(inbox := s.inbox + {f})
      case Tamper(f, None) => s.(remote := s.remote - {f})
      case Tamper(f, Some(r)) => if r.Forged? || r in s.reached then s.(remote := s.remote[f := r]) else s
      case LandUpload(f, r) => if (f, r) in s.lateUploads then Land(s, f, r) else s
      case LandDelete(f) => if f in s.lateDeletes then s.(inbox := s.inbox - {f}) else s
      case _ => s
  {
  }

  lemma UploadApplied(s: Sys, f: File, r: Answer, outcome: Outcome)
    requires Is(s, f, Durable(r))
    ensures Apply(s, Upload(f, outcome)) == Uploaded(s, f, r, outcome)
  {
  }

  lemma DeleteApplied(s: Sys, f: File, outcome: Outcome)
    requires Is(s, f, Marked)
    ensures Apply(s, Delete(f, outcome)) == Leave(Deleted(s, f, outcome), f)
  {
  }

  lemma LookApplied(s: Sys, f: File, tooFresh: bool)
    requires Waiting(s, f) && f in s.local
    ensures Apply(s, Look(f, tooFresh)) ==
      if f in s.remote && s.remote[f].Signed? && s.remote[f].file == f then Enter(s, f, Acknowledged)
      else if f in s.remote || tooFresh then s
      else Enter(s, f, Durable(s.local[f]))
  {
  }

  lemma RetireApplied(s: Sys, f: File, outcome: Outcome)
    requires f in s.markers && f !in s.stages
    ensures Apply(s, Retire(f, outcome)) == if f in s.inbox then Deleted(s, f, outcome) else s
  {
  }

  lemma LateDeletesMarked(s: Sys)
    requires ReplayInv(s)
    ensures s.lateDeletes <= s.markers
  {
  }

  lemma MarkedHolds(s: Sys, f: File)
    requires ReplayInv(s) && Is(s, f, Marked)
    ensures f in s.markers
  {
    assert StageOk(s, f, s.stages[f]);
  }
}
