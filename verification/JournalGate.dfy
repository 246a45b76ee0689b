/**
The read-only gate run before a mailbox handover, over whatever is on disk: links, junk and torn
files included.  It is exact (accepts if and only if every entry is in order and everything fits the
audit budget), and on journals the bridge can produce, acceptance means every execution completed.
*/
module JournalGate {
  import opened Prelude
  import opened RequestJournal
  import opened JournalExecution
  import opened JournalReceipts

  const MAX_RESULT_BYTES := 48 * 1024 * 1024
  const MAX_TOTAL_BYTES := 256 * 1024 * 1024
  const MAX_REQUEST_BYTES := 2 * 1024 * 1024
  const MAX_MARKER_BYTES := 65536
  const MAX_ENTRIES := 100000

  /** A path: nothing, a symbolic link, not a regular file, undecodable content, or a document. */
  datatype File<T> = Absent | Link | Special | Torn(size: nat) | Doc(value: T, size: nat)
  {
    predicate Regular() { Torn? || Doc? }
    predicate Exists() { !Absent? && !Link? }
  }

  datatype Entry = Entry(
    name: RequestId, plainDirectory: bool,
    request: File<Raw>, started: File<Sha>, active: File<()>, result: File<Receipt>, finished: File<Mark>)

  /** admitted.json as the gate reads it. */
  datatype AdmissionDoc = AdmissionDoc(operation: OperationId, original: RequestId)

  /** key: the operation whose hash is the directory's name, if it is the hash of anything. */
  datatype AdmissionEntry = AdmissionEntry(plainDirectory: bool, key: Option<OperationId>, marker: File<AdmissionDoc>)

  /** None: the directory does not exist. */
  datatype State = State(journal: Option<seq<Entry>>, operations: Option<seq<AdmissionEntry>>)

  datatype Hold =
    | ActiveEvidence | LinkedReceipt | ResultWithoutFinished | FinishedWithoutResult | OverBudget
    | UnreadableReceipt | IndeterminateCompletion | ReceiptMismatch | NoStartedNoReplay | ReplaySourceBad
    | StartedLinked | StartedMismatch | RequestBad | MalformedEntry | TooManyEntries | Unresolved
    | AdmissionMalformed | AdmissionSourceBad

  datatype Counters = Counters(finished: nat, startedWithoutFinished: nat, indeterminate: nat, unverifiable: nat)

  /** The id and operation a stored request document names, when it decodes. */
  type Describe = Raw -> Option<(RequestId, Option<OperationId>)>

  function Entries(state: State): seq<Entry> {
    if state.journal.None? then [] else state.journal.value
  }

  function Admissions(state: State): seq<AdmissionEntry> {
    if state.operations.None? then [] else state.operations.value
  }

  function Lookup(entries: seq<Entry>, name: RequestId): (e: Option<Entry>)
    ensures e.Some? ==> e.value in entries && e.value.name == name
    ensures e.None? ==> forall x :: x in entries ==> x.name != name
  {
    if entries == [] then None
    else if entries[0].name == name then Some(entries[0])
    else Lookup(entries[1..], name)
  }

  // ---------------------------------------------------------------- what an entry must look like

  predicate SourceInOrder(entries: seq<Entry>, name: RequestId, proof: ReplayProof) {
    var source := Lookup(entries, proof.source);
    && proof.source != name && source.Some?
    && var g := source.value;
      && g.plainDirectory && g.started.Regular() && g.finished.Regular() && g.result.Doc?
      && g.result.size <= MAX_RESULT_BYTES
      && proof.sourceSha == ReceiptSha(g.result.value)
      && g.result.value.status == Completed && g.result.value.id == proof.source
  }

  predicate Settled(entries: seq<Entry>, e: Entry) {
    && e.finished.Doc? && e.finished.size <= MAX_MARKER_BYTES
    && e.result.Doc? && e.result.size <= MAX_RESULT_BYTES
    && e.finished.value.status != Indeterminate
    && e.result.value.status == e.finished.value.status && e.result.value.sha == e.finished.value.sha
    && e.result.value.id == e.name
    && (e.started.Absent? ||
        (e.started.Doc? && e.started.size <= MAX_MARKER_BYTES && e.started.value == e.finished.value.sha
         && e.request.Doc? && e.request.size <= MAX_REQUEST_BYTES && Sha(e.request.value) == e.finished.value.sha))
    && (e.finished.value.status == Completed && e.started.Absent? ==>
      e.result.value.replay.Some? && SourceInOrder(entries, e.name, e.result.value.replay.value))
  }

  predicate Untouched(e: Entry) {
    e.finished.Absent? && e.result.Absent? && e.started.Absent?
  }

  predicate InOrder(entries: seq<Entry>, e: Entry) {
    e.plainDirectory && e.active.Absent? && (Untouched(e) || Settled(entries, e))
  }

  function Cost(e: Entry): nat {
    if e.finished.Doc? && e.result.Doc? then
      e.finished.size + e.result.size + (if e.started.Doc? && e.request.Doc? then e.request.size else 0)
    else 0
  }

  function TotalCost(entries: seq<Entry>): nat {
    if entries == [] then 0 else TotalCost(entries[..|entries| - 1]) + Cost(entries[|entries| - 1])
  }

  lemma {:induction false} PrefixCost(entries: seq<Entry>, i: nat)
    requires i <= |entries|
    ensures TotalCost(entries[..i]) <= TotalCost(entries)
  {
    if i < |entries| {
      assert entries[..|entries| - 1][..i] == entries[..i];
      PrefixCost(entries[..|entries| - 1], i);
    } else {
      assert entries[..i] == entries;
    }
  }

  // ---------------------------------------------------------------- the checks, in program order

  method VerifyReceiptPair(entries: seq<Entry>, e: Entry, budget: nat) returns (r: Result<nat, Hold>)
    requires e.plainDirectory
    ensures r.Ok? && !e.finished.Absent? ==> InOrder(entries, e)
    ensures r.Ok? && e.finished.Absent? ==> e.active.Absent? && e.result.Absent?
    ensures InOrder(entries, e) && Cost(e) <= budget ==> r.Ok?
    ensures r.Ok? ==> Cost(e) <= budget && r.value == budget - Cost(e)
  {
    if !e.active.Absent? {
      return Err(ActiveEvidence);
    }
    if e.finished.Link? || e.result.Link? {
      return Err(LinkedReceipt);
    }
    if e.finished.Absent? {
      if !e.result.Absent? {
        return Err(ResultWithoutFinished);
      }
      return Ok(budget);
    }
    if !e.finished.Regular() || !e.result.Regular() {
      return Err(FinishedWithoutResult);
    }
    if e.result.size > MAX_RESULT_BYTES || e.result.size + e.finished.size > budget || e.finished.size > MAX_MARKER_BYTES {
      return Err(OverBudget);
    }
    if e.finished.Torn? || e.result.Torn? {
      return Err(UnreadableReceipt);
    }
    var mark, receipt := e.finished.value, e.result.value;
    if mark.status == Indeterminate || receipt.status == Indeterminate {
      return Err(IndeterminateCompletion);
    }
    if receipt.status != mark.status || receipt.sha != mark.sha || receipt.id != e.name {
      return Err(ReceiptMismatch);
    }
    if mark.status == Completed && !e.started.Exists() && !e.started.Link? {
      if receipt.replay.None? || receipt.replay.value.source == e.name {
        return Err(NoStartedNoReplay);
      }
      var source := Lookup(entries, receipt.replay.value.source);
      if source.None? || !SourceInOrder(entries, e.name, receipt.replay.value) {
        return Err(ReplaySourceBad);
      }
    }
    if e.started.Link? {
      return Err(StartedLinked);
    }
    var left := budget;
    if e.started.Exists() {
      if !e.started.Regular() || e.started.size > MAX_MARKER_BYTES || e.started.Torn? || e.started.value != mark.sha {
        return Err(StartedMismatch);
      }
      if !e.request.Regular() || e.request.size > MAX_REQUEST_BYTES
         || e.request.size > budget - e.result.size - e.finished.size {
        return Err(RequestBad);
      }
      if e.request.Torn? || Sha(e.request.value) != mark.sha {
        return Err(RequestBad);
      }
      left := left - e.request.size;
    }
    return Ok(left - e.result.size - e.finished.size);
  }

  predicate AdmissionInOrder(describe: Describe, entries: seq<Entry>, a: AdmissionEntry) {
    && a.plainDirectory && a.marker.Doc? && a.marker.size <= MAX_MARKER_BYTES
    && a.key == Some(a.marker.value.operation)
    && var source := Lookup(entries, a.marker.value.original);
      && source.Some?
      && var g := source.value;
        && g.plainDirectory && g.request.Doc? && g.finished.Doc? && g.result.Regular()
        && g.request.size <= MAX_REQUEST_BYTES
        && describe(g.request.value) == Some((a.marker.value.original, Some(a.marker.value.operation)))
        && g.finished.value.sha == Sha(g.request.value)
  }

  function AdmissionCost(entries: seq<Entry>, a: AdmissionEntry): nat {
    if a.marker.Doc? then
      var source := Lookup(entries, a.marker.value.original);
      a.marker.size + (if source.Some? && source.value.request.Doc? then source.value.request.size else 0)
    else 0
  }

  function AdmissionsCost(entries: seq<Entry>, admissions: seq<AdmissionEntry>): nat {
    if admissions == [] then 0
    else AdmissionsCost(entries, admissions[..|admissions| - 1])
         + AdmissionCost(entries, admissions[|admissions| - 1])
  }

  lemma {:induction false} PrefixAdmissionsCost(entries: seq<Entry>, admissions: seq<AdmissionEntry>, i: nat)
    requires i <= |admissions|
    ensures AdmissionsCost(entries, admissions[..i]) <= AdmissionsCost(entries, admissions)
  {
    if i < |admissions| {
      assert admissions[..|admissions| - 1][..i] == admissions[..i];
      PrefixAdmissionsCost(entries, admissions[..|admissions| - 1], i);
    } else {
      assert admissions[..i] == admissions;
    }
  }

  method VerifyAdmission(describe: Describe, entries: seq<Entry>, a: AdmissionEntry, budget: nat)
    returns (r: Result<nat, Hold>)
    ensures r.Ok? <==> AdmissionInOrder(describe, entries, a) && AdmissionCost(entries, a) <= budget
    ensures r.Ok? ==> r.value == budget - AdmissionCost(entries, a)
  {
    if !a.plainDirectory || a.key.None? {
      return Err(AdmissionMalformed);
    }
    if !a.marker.Regular() || a.marker.size > MAX_MARKER_BYTES || a.marker.size > budget {
      return Err(AdmissionMalformed);
    }
    if a.marker.Torn? || a.marker.value.operation != a.key.value {
      return Err(AdmissionMalformed);
    }
    var left := budget - a.marker.size;
    var source := Lookup(entries, a.marker.value.original);
    if source.None? || !source.value.plainDirectory || !source.value.request.Regular()
       || !source.value.finished.Regular() || !source.value.result.Regular() {
      return Err(AdmissionSourceBad);
    }
    var g := source.value;
    if g.request.size > MAX_REQUEST_BYTES || g.request.size > left {
      return Err(AdmissionSourceBad);
    }
    if g.request.Torn? || g.finished.Torn? {
      return Err(AdmissionSourceBad);
    }
    left := left - g.request.size;
    var named := describe(g.request.value);
    if named != Some((a.marker.value.original, Some(a.marker.value.operation)))
       || g.finished.value.sha != Sha(g.request.value) {
      return Err(AdmissionSourceBad);
    }
    return Ok(left);
  }

  method VerifyAdmissions(describe: Describe, entries: seq<Entry>, admissions: seq<AdmissionEntry>, budget: nat)
    returns (r: Result<nat, Hold>)
    ensures r.Ok? <==>
      && |admissions| <= MAX_ENTRIES
      && (forall a :: a in admissions ==> AdmissionInOrder(describe, entries, a))
      && AdmissionsCost(entries, admissions) <= budget
  {
    var left := budget;
    for i := 0 to |admissions|
      invariant i <= MAX_ENTRIES
      invariant forall a :: a in admissions[..i] ==> AdmissionInOrder(describe, entries, a)
      invariant left == budget - AdmissionsCost(entries, admissions[..i])
    {
      if i + 1 > MAX_ENTRIES {
        return Err(TooManyEntries);
      }
      var next := VerifyAdmission(describe, entries, admissions[i], left);
      assert admissions[..i + 1] == admissions[..i] + [admissions[i]];
      if next.Err? {
        PrefixAdmissionsCost(entries, admissions, i + 1);
        assert admissions[i] in admissions;
        return Err(next.error);
      }
      left := next.value;
    }
    assert admissions[..|admissions|] == admissions;
    return Ok(left);
  }

  ghost predicate Acceptable(describe: Describe, state: State) {
    var entries := Entries(state);
    var admissions := Admissions(state);
    && |entries| <= MAX_ENTRIES && |admissions| <= MAX_ENTRIES
    && (forall e :: e in entries ==> InOrder(entries, e))
    && (forall a :: a in admissions ==> AdmissionInOrder(describe, entries, a))
    && TotalCost(entries) + AdmissionsCost(entries, admissions) <= MAX_TOTAL_BYTES
  }

  function FinishedCount(entries: seq<Entry>): nat {
    if entries == [] then 0
    else FinishedCount(entries[..|entries| - 1]) + (if entries[|entries| - 1].finished.Exists() then 1 else 0)
  }

  /** Where the entries that have a FINISHED stand. */
  function Finished(entries: seq<Entry>): set<nat> {
    set i: nat | i < |entries| && entries[i].finished.Exists()
  }

  lemma {:induction false} CountsFinished(entries: seq<Entry>)
    ensures FinishedCount(entries) == |Finished(entries)|
  {
    if entries != [] {
      var last := |entries| - 1;
      var rest := entries[..last];
      CountsFinished(rest);
      if entries[last].finished.Exists() {
        assert Finished(entries) == Finished(rest) + {last};
      } else {
        assert Finished(entries) == Finished(rest);
      }
    }
  }

  /** One streaming pass over the requests, then one over the admissions. */
  method Verify(describe: Describe, state: State) returns (r: Result<Counters, Hold>)
    ensures r.Ok? <==> Acceptable(describe, state)
    ensures r.Ok? ==> r.value == Counters(|Finished(Entries(state))|, 0, 0, 0)
  {
    var entries := Entries(state);
    var counters := Counters(0, 0, 0, 0);
    var remaining := MAX_TOTAL_BYTES;
    for i := 0 to |entries|
      invariant i <= MAX_ENTRIES
      invariant forall e :: e in entries[..i] ==> InOrder(entries, e)
      invariant remaining == MAX_TOTAL_BYTES - TotalCost(entries[..i]) && remaining >= 0
      invariant counters == Counters(FinishedCount(entries[..i]), 0, 0, 0)
    {
      if i + 1 > MAX_ENTRIES {
        return Err(TooManyEntries);
      }
      var e := entries[i];
      assert e in entries && entries[..i + 1] == entries[..i] + [e];
      if !e.plainDirectory {
        return Err(MalformedEntry);
      }
      var pair := VerifyReceiptPair(entries, e, remaining);
      if pair.Err? {
        PrefixCost(entries, i + 1);
        return Err(pair.error);
      }
      if e.started.Link? {
        return Err(StartedLinked);
      }
      if e.started.Exists() && !e.finished.Exists() {
        return Err(Unresolved);
      }
      remaining := pair.value;
      if e.finished.Exists() {
        counters := counters.(finished := counters.finished + 1);
      }
    }
    assert entries[..|entries|] == entries;
    CountsFinished(entries);
    if state.operations.Some? {
      var rest := VerifyAdmissions(describe, entries, state.operations.value, remaining);
      if rest.Err? {
        return Err(rest.error);
      }
    }
    return Ok(counters);
  }

  // ---------------------------------------------------------------- what acceptance proves on any disk

  /** A completed request with STARTED and its own bytes, whose result file has this hash. */
  predicate ExecutedOriginal(g: Entry, sha: ReceiptSha) {
    && g.started.Doc? && g.request.Doc? && g.finished.Doc? && g.result.Doc?
    && g.result.value.status == g.finished.value.status == Completed
    && g.started.value == Sha(g.request.value) == g.result.value.sha
    && ReceiptSha(g.result.value) == sha
  }

  /** A definite receipt for the bytes that asked for this operation. */
  predicate SettledSource(describe: Describe, g: Entry, a: AdmissionDoc) {
    && g.name == a.original
    && g.request.Doc? && g.finished.Doc? && g.result.Doc?
    && g.finished.value.status == g.result.value.status != Indeterminate
    && g.finished.value.sha == g.result.value.sha == Sha(g.request.value)
    && describe(g.request.value) == Some((a.original, Some(a.operation)))
  }

  /**
  On an accepted journal every entry is a plain directory without ACTIVE that is either untouched or has a
  FINISHED and a result of its own name, of one hash and one definite status.  Every STARTED request also has
  its bytes and STARTED under that hash, and a completed result without STARTED is one hop away from a
  completed original that has STARTED and is itself in order.
  */
  lemma AcceptanceIsSound(describe: Describe, state: State, e: Entry)
    requires Acceptable(describe, state) && e in Entries(state)
    requires forall x, y :: x in Entries(state) && y in Entries(state) && x.name == y.name ==> x == y
    ensures e.plainDirectory && e.active.Absent?
    ensures e.finished.Absent? ==> e.result.Absent? && e.started.Absent?
    ensures !e.finished.Absent? ==>
      && e.finished.Doc? && e.finished.size <= MAX_MARKER_BYTES && e.result.Doc? && e.result.size <= MAX_RESULT_BYTES
      && e.result.value.id == e.name && e.finished.value.sha == e.result.value.sha
      && e.finished.value.status == e.result.value.status != Indeterminate
    ensures !e.started.Absent? ==>
      && e.request.Doc? && e.request.size <= MAX_REQUEST_BYTES && e.started.Doc? && e.started.size <= MAX_MARKER_BYTES
      && e.finished.Doc? && e.result.Doc?
      && e.started.value == Sha(e.request.value) == e.finished.value.sha == e.result.value.sha
      && e.finished.value.status == e.result.value.status != Indeterminate
    ensures e.result.Doc? && e.result.value.status == Completed && e.started.Absent? ==>
      && e.result.value.replay.Some?
      && var proof := e.result.value.replay.value;
        exists g :: g in Entries(state) && g.name == proof.source != e.name && ExecutedOriginal(g, proof.sourceSha)
  {
    var entries := Entries(state);
    assert InOrder(entries, e);
    if e.result.Doc? && e.result.value.status == Completed && e.started.Absent? {
      assert SourceInOrder(entries, e.name, e.result.value.replay.value);
      var g := Lookup(entries, e.result.value.replay.value.source).value;
      assert InOrder(entries, g);
    }
  }

  /**
  Every operation directory of an accepted journal is plain and named after the operation its admission names,
  which has its own complete source receipt.
  */
  lemma AdmissionsAreSettled(describe: Describe, state: State, a: AdmissionEntry)
    requires Acceptable(describe, state)
    requires state.operations.Some? && a in state.operations.value
    ensures a.plainDirectory && a.marker.Doc? && a.marker.size <= MAX_MARKER_BYTES
    ensures a.key == Some(a.marker.value.operation)
    ensures exists g :: g in Entries(state) && SettledSource(describe, g, a.marker.value)
  {
    assert AdmissionInOrder(describe, Entries(state), a);
    var g := Lookup(Entries(state), a.marker.value.original).value;
    assert InOrder(Entries(state), g);
  }

  // ---------------------------------------------------------------- composed with the writer

  predicate Shows<T(==)>(file: File<T>, content: Option<T>) {
    match content
    case None => file.Absent?
    case Some(v) => file.Doc? && file.value == v
  }

  predicate ShowsFolder(e: Entry, f: Folder) {
    && e.plainDirectory
    && Shows(e.request, f.request) && Shows(e.started, f.started)
    && Shows(e.result, f.result) && Shows(e.finished, f.finished)
    && (e.active.Absent? <==> !f.active)
  }

  /** The directory of one operation: made under its lock, and empty until the admission is written. */
  predicate ShowsOperation(a: AdmissionEntry, s: Sys) {
    && a.plainDirectory && a.key.Some?
    && if a.key.value in s.admitted then
         a.marker.Doc? && a.marker.value == AdmissionDoc(a.key.value, s.admitted[a.key.value].original)
       else a.marker.Absent?
  }

  predicate Within<T>(file: File<T>, limit: nat) {
    file.Doc? ==> file.size <= limit
  }

  /** The files the gate reads of a finished request are within its limits. */
  predicate SizesFit(e: Entry) {
    e.finished.Doc? ==>
      && Within(e.finished, MAX_MARKER_BYTES) && Within(e.result, MAX_RESULT_BYTES)
      && (e.started.Doc? ==> Within(e.started, MAX_MARKER_BYTES) && Within(e.request, MAX_REQUEST_BYTES))
  }

  /** So are those it reads of an admission: the marker, and the request of the original. */
  predicate AdmissionFits(entries: seq<Entry>, a: AdmissionEntry) {
    a.marker.Doc? ==>
      && Within(a.marker, MAX_MARKER_BYTES)
      && var source := Lookup(entries, a.marker.value.original);
        source.Some? ==> Within(source.value.request, MAX_REQUEST_BYTES)
  }

  /** The disk holds the requests and the operations of the machine state, and nothing else. */
  ghost predicate Depicts(state: State, s: Sys) {
    && (forall e :: e in Entries(state) ==> ShowsFolder(e, At(s, e.name)))
    && (forall rid :: At(s, rid) != EMPTY ==> exists e :: e in Entries(state) && e.name == rid)
    && (forall a :: a in Admissions(state) ==> ShowsOperation(a, s))
    && (forall op :: op in s.admitted ==> exists a :: a in Admissions(state) && a.key == Some(op))
  }

  lemma LookupDepicted(state: State, s: Sys, rid: RequestId)
    requires Depicts(state, s)
    ensures At(s, rid) != EMPTY ==> Lookup(Entries(state), rid).Some?
    ensures Lookup(Entries(state), rid).Some? ==> ShowsFolder(Lookup(Entries(state), rid).value, At(s, rid))
  {
    if At(s, rid) != EMPTY {
      var e :| e in Entries(state) && e.name == rid;
      assert Lookup(Entries(state), rid).Some?;
    }
  }

  predicate Quiescent(f: Folder) {
    && !f.active
    && (f.finished.None? ==> f.result.None? && f.started.None?)
    && (f.finished.Some? ==> f.finished.value.status != Indeterminate)
  }

  /** The operation is admitted, and its original has finished on bytes that ask for this operation. */
  predicate Concluded(describe: Describe, s: Sys, op: OperationId) {
    && op in s.admitted
    && var original := s.admitted[op].original;
      && At(s, original).finished.Some? && At(s, original).request.Some?
      && describe(At(s, original).request.value) == Some((original, Some(op)))
  }

  /** A request passes exactly when it is not interrupted, not half-recorded and not indeterminate, and fits. */
  lemma EntryPassesIffQuiescent(state: State, s: Sys, e: Entry)
    requires ReceiptInv(s) && Depicts(state, s) && e in Entries(state)
    ensures InOrder(Entries(state), e) ==> Quiescent(At(s, e.name)) && SizesFit(e)
    ensures Quiescent(At(s, e.name)) && (forall x :: x in Entries(state) ==> SizesFit(x)) ==> InOrder(Entries(state), e)
  {
    var f := At(s, e.name);
    assert FolderInv(s, e.name, f);
    if Quiescent(f) && f.finished.Some? && f.finished.value.status == Completed && f.started.None? {
      var proof := f.result.value.replay.value;
      assert ReplaySource(s, e.name, proof);
      LookupDepicted(state, s, proof.source);
    }
  }

  lemma AdmissionPassesIffConcluded(describe: Describe, state: State, s: Sys, a: AdmissionEntry)
    requires ReceiptInv(s) && Depicts(state, s) && a in Admissions(state)
    ensures a.key.Some?
    ensures AdmissionInOrder(describe, Entries(state), a) <==>
      Concluded(describe, s, a.key.value) && AdmissionFits(Entries(state), a)
  {
    assert ShowsOperation(a, s);
    if a.key.value in s.admitted {
      var original := s.admitted[a.key.value].original;
      assert FolderInv(s, original, At(s, original));
      LookupDepicted(state, s, original);
    }
  }

  /** Counts, single files and the total are within what the gate is prepared to audit. */
  ghost predicate Auditable(state: State) {
    && |Entries(state)| <= MAX_ENTRIES && |Admissions(state)| <= MAX_ENTRIES
    && (forall e :: e in Entries(state) ==> SizesFit(e))
    && (forall a :: a in Admissions(state) ==> AdmissionFits(Entries(state), a))
    && TotalCost(Entries(state)) + AdmissionsCost(Entries(state), Admissions(state)) <= MAX_TOTAL_BYTES
  }

  /**
  On every journal the bridge can leave behind, the gate passes exactly when every request is
  quiescent, every operation directory has its admission and that operation's original has finished
  on its own bytes, and every file and the whole fit the audit: nothing the bridge writes is held for any other
  reason, and nothing unresolved gets through.
  */
  lemma GateIsExactOnReachableJournals(
    env: Env, cfg: ConfigId, labels: seq<Label>, describe: Describe, state: State)
    requires Depicts(state, Exec(env, true, Initial(cfg), labels))
    ensures var s := Exec(env, true, Initial(cfg), labels);
      Acceptable(describe, state) <==>
        && (forall rid :: Quiescent(At(s, rid)))
        && (forall a :: a in Admissions(state) ==> a.key.Some? && Concluded(describe, s, a.key.value))
        && Auditable(state)
  {
    var s := Exec(env, true, Initial(cfg), labels);
    InitialReceiptInv(cfg);
    ReachableReceiptInv(env, Initial(cfg), labels);
    forall e | e in Entries(state)
      ensures InOrder(Entries(state), e) ==> Quiescent(At(s, e.name)) && SizesFit(e)
      ensures Quiescent(At(s, e.name)) && (forall x :: x in Entries(state) ==> SizesFit(x)) ==> InOrder(Entries(state), e)
    {
      EntryPassesIffQuiescent(state, s, e);
    }
    forall a | a in Admissions(state)
      ensures a.key.Some? && (AdmissionInOrder(describe, Entries(state), a) <==>
        Concluded(describe, s, a.key.value) && AdmissionFits(Entries(state), a))
    {
      AdmissionPassesIffConcluded(describe, state, s, a);
    }
    hide InOrder, AdmissionInOrder, AdmissionFits, SizesFit, Concluded, ReceiptInv, Exec;
    if forall e :: e in Entries(state) ==> InOrder(Entries(state), e) {
      forall rid
        ensures Quiescent(At(s, rid))
      {
        if At(s, rid) != EMPTY {
          var e :| e in Entries(state) && e.name == rid;
          assert InOrder(Entries(state), e);
        }
      }
    }
  }

  /** What a worker on a new operation has done when it has just written the admission. */
  function AdmitOnly(rid: RequestId, raw: Raw, choice: Choice, cfg: ConfigId): seq<Label> {
    [Launch(0, rid, raw), Work(0, choice), Work(0, choice), Work(0, choice), Crash(cfg)]
  }

  /**
  Quiescent folders alone are not enough.  After a crash between the admission and the first write
  to the request's folder every folder is quiescent, there may be no folder at all, and the gate holds.
  */
  lemma AdmissionAloneIsHeld(env: Env, cfg: ConfigId, rid: RequestId, raw: Raw, choice: Choice, describe: Describe)
    returns (state: State)
    requires env.Logical(raw, rid, cfg).Some?
    ensures var s := Exec(env, true, Initial(cfg), AdmitOnly(rid, raw, choice, cfg));
      && Depicts(state, s) && Entries(state) == [] && |Admissions(state)| == 1
      && (forall r :: At(s, r) == EMPTY && Quiescent(At(s, r)))
      && !Acceptable(describe, state)
  {
    var (op, digest) := env.Logical(raw, rid, cfg).value;
    var labels := AdmitOnly(rid, raw, choice, cfg);
    var s0 := Initial(cfg);
    var s1 := Apply(env, true, s0, labels[0]);
    var s2 := Apply(env, true, s1, labels[1]);
    var s3 := Apply(env, true, s2, labels[2]);
    var s4 := Apply(env, true, s3, labels[3]);
    var s5 := Apply(env, true, s4, labels[4]);
    assert s1.workers[0] == Worker(rid, raw, Arrived) && s2.workers[0].pc == InOperation && s3.workers[0].pc == Admit;
    assert s5.admitted == map[op := Admission(digest, rid)];
    assert Exec(env, true, s0, labels) == s5 by {
      assert Exec(env, true, s4, labels[4..]) == Exec(env, true, s5, []);
      assert labels[3..][1..] == labels[4..] && labels[2..][1..] == labels[3..] && labels[1..][1..] == labels[2..];
      assert Exec(env, true, s3, labels[3..]) == s5;
      assert Exec(env, true, s2, labels[2..]) == s5;
      assert Exec(env, true, s1, labels[1..]) == s5;
    }
    var a := AdmissionEntry(true, Some(op), Doc(AdmissionDoc(op, rid), 0));
    state := State(Some([]), Some([a]));
    assert a in Admissions(state) && !AdmissionInOrder(describe, Entries(state), a);
  }

  /**
  Acceptance of a journal the bridge produced: every request with a STARTED marker, and every request
  that entered the shell, has its own bytes on disk, ran exactly once on them, returned drained, and
  is recorded as completed under their hash.
  */
  lemma AcceptedMeansEveryRunCompleted(
    env: Env, cfg: ConfigId, labels: seq<Label>, describe: Describe, state: State, rid: RequestId)
    requires Depicts(state, Exec(env, true, Initial(cfg), labels)) && Acceptable(describe, state)
    requires var s := Exec(env, true, Initial(cfg), labels); At(s, rid).started.Some? || Ran(s, rid)
    ensures var s := Exec(env, true, Initial(cfg), labels);
      && At(s, rid).request.Some?
      && var raw := At(s, rid).request.value;
        && At(s, rid).started == Some(Sha(raw))
        && At(s, rid).finished == Some(Mark(Completed, Sha(raw)))
        && At(s, rid).result == Some(Plain(rid, raw, Completed))
        && rid in s.drained && RanOnceAs(s, rid, raw)
  {
    var s := Exec(env, true, Initial(cfg), labels);
    InitialReceiptInv(cfg);
    ReachableReceiptInv(env, Initial(cfg), labels);
    ReachableExecInv(env, true, Initial(cfg), labels);
    GateIsExactOnReachableJournals(env, cfg, labels, describe, state);
    hide Exec, Acceptable, Depicts;
    var f := At(s, rid);
    if Ran(s, rid) {
      var i :| 0 <= i < |s.runs| && s.runs[i].rid == rid;
      assert At(s, s.runs[i].rid).started == Some(Sha(s.runs[i].raw));
    }
    assert Quiescent(f) && FolderInv(s, rid, f);
    assert rid in s.drained && Ran(s, rid);
    StartedRunIsUnique(env, s, rid);
  }
}
