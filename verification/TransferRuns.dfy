/**
  Every interleaving of the three actors that share the transfer queue: the Wi-Fi thread, which
  handles one request at a time, the import worker, and the interface, which polls, starts the
  worker and cancels. One event is one locked region of one actor; an event that the actor cannot
  perform in the current state leaves the system unchanged, so every event sequence is a run.
 */
module TransferRuns {
  import opened Bytes
  import opened TransferQueue

  /** The request the Wi-Fi thread is inside. */
  datatype Wifi = Idle | Uploading(index: nat, sidecar: bool, expected: nat, received: nat)

  datatype Worker = NoWorker | AtItem(next: nat) | InExport(current: nat) | WorkerDone

  /**
    `retries` counts the accepted uploads that took an item out of Failed, `exports[i]` the import
    calls for item i, both since the last publication; `publications` counts publications.
   */
  datatype System = System(
    queue: Queue, wifi: Wifi, worker: Worker, pollSawSync: bool,
    retries: nat, exports: seq<nat>, publications: nat)

  const INITIAL := System(EMPTY_QUEUE, Idle, NoWorker, false, 0, [], 0)

  datatype Event =
    | Publish(id: Text, metas: seq<Metadata>)
    | BeginUpload(name: Text, size: nat)
    | Progress(count: nat)
    | EndUpload(error: int)
    | RequestSync
    | Cancel
    | Poll
    | StartWorker(started: bool)
    | WorkerLocks
    | ExportReturns(status: int)

  function DeclaredTotal(metas: seq<Metadata>): nat {
    if metas == [] then 0
    else metas[0].size + metas[0].subtitleSize + DeclaredTotal(metas[1..])
  }

  /** What the parser guarantees of a publication, as far as the queue depends on it. */
  predicate Publishable(metas: seq<Metadata>) {
    && 1 <= |metas| <= QUEUE_MAX
    && (forall i :: 0 <= i < |metas| ==> SizesInRange(metas[i]))
    && (forall i, j :: 0 <= i < j < |metas| ==> metas[i].id != metas[j].id)
  }

  predicate SizesInRange(meta: Metadata) {
    0 < meta.size <= MAX_MEDIA && meta.subtitleSize <= MAX_SUBTITLE
  }

  function Next(s: System, e: Event): System {
    var q := s.queue;
    match e
    case Publish(id, metas) =>
      if s.wifi.Idle? && Publishable(metas) && PublishAccepted(q)
      then s.(queue := AfterPublish(q, id, metas, DeclaredTotal(metas)), retries := 0,
              exports := seq(|metas|, _ => 0), publications := s.publications + 1)
      else s
    case BeginUpload(name, size) =>
      // The request handler refuses empty and oversized bodies before it looks at the queue.
      if s.wifi.Idle? && 0 < size <= MAX_MEDIA && FindAccepted(q, name, size)
      then var i := IndexOf(q.items, name);
           s.(queue := AfterFind(q, name, size), wifi := Uploading(i, IsSidecar(name), size, 0),
              retries := if q.items[i].state.Failed? then s.retries + 1 else s.retries)
      else s
    case Progress(count) =>
      if s.wifi.Uploading? && s.wifi.index < |q.items| && 0 < count <= s.wifi.expected - s.wifi.received
      then var received := s.wifi.received + count;
           s.(queue := AfterProgress(q, s.wifi.index, received, s.wifi.sidecar),
              wifi := s.wifi.(received := received))
      else s
    case EndUpload(error) =>
      // Success is reported only when every declared byte was received.
      if s.wifi.Uploading? && s.wifi.index < |q.items| && (error == 0 ==> s.wifi.received == s.wifi.expected)
      then s.(queue := AfterReceived(q, s.wifi.index, s.wifi.sidecar, error), wifi := Idle)
      else s
    case RequestSync =>
      if s.wifi.Idle? then s.(queue := AfterSync(q)) else s
    case Cancel =>
      s.(queue := AfterCancel(q))
    case Poll =>
      // A finished worker is joined before the queue is inspected.
      if s.pollSawSync then s
      else var worker := if s.worker.WorkerDone? then NoWorker else s.worker;
           s.(worker := worker, pollSawSync := q.syncing && worker.NoWorker?)
    case StartWorker(started) =>
      if !s.pollSawSync then s
      else if started then s.(worker := AtItem(0), pollSawSync := false)
      else s.(queue := AfterCancel(q), pollSawSync := false)
    case WorkerLocks =>
      if !s.worker.AtItem? then s
      else
        var i := s.worker.next;
        if i >= |q.items| || q.cancelled then s.(queue := AfterImportsStop(q), worker := WorkerDone)
        else if !q.items[i].state.Received? then s.(worker := AtItem(i + 1))
        else s.(queue := AfterImportBegins(q, i), worker := InExport(i),
                exports := if i < |s.exports| then s.exports[i := s.exports[i] + 1] else s.exports)
    case ExportReturns(status) =>
      if !s.worker.InExport? || s.worker.current >= |q.items| then s
      else s.(queue := AfterImportEnds(q, s.worker.current, status), worker := AtItem(s.worker.current + 1))
  }

  function Run(s: System, events: seq<Event>): System {
    if events == [] then s
    else Next(Run(s, events[..|events| - 1]), events[|events| - 1])
  }

  // ---- the invariant ----

  predicate ItemSound(item: Item) {
    && SizesInRange(item.meta)
    && item.received <= DeclaredBytes(item)
    && (item.state.Received? || item.state.Importing? || item.state.Imported? ==> Complete(item))
    && (item.state.Waiting? || item.state.Receiving? ==> !Complete(item))
  }

  /** The item went through the import call: an upload failure leaves its item incomplete. */
  predicate Exported(item: Item) {
    item.state.Importing? || item.state.Imported? || (item.state.Failed? && Complete(item))
  }

  predicate Settled(item: Item) {
    item.state.Imported? || item.state.Failed?
  }

  predicate Accounting(s: System) {
    var q := s.queue;
    && q.transferred == Sum(q.items, ReceivedBytes)
    && q.total == Sum(q.items, DeclaredBytes)
    && q.imported == Sum(q.items, ImportedWeight)
    && q.failed == Sum(q.items, FailedWeight) + s.retries
  }

  predicate Lifecycle(s: System) {
    var items := s.queue.items;
    && |items| <= QUEUE_MAX
    && (forall i :: 0 <= i < |items| ==> ItemSound(items[i]))
    && (forall i, j :: 0 <= i < j < |items| ==> items[i].meta.id != items[j].meta.id)
    && |s.exports| == |items|
    && (forall i :: 0 <= i < |items| ==> s.exports[i] == if Exported(items[i]) then 1 else 0)
  }

  predicate WorkerIsolated(s: System) {
    var q := s.queue;
    && (s.worker.AtItem? || s.worker.InExport? ==> q.syncing)
    && (s.pollSawSync ==> q.syncing && s.worker.NoWorker?)
    && (s.worker.InExport? ==> s.worker.current < |q.items|)
    && (s.worker.AtItem? ==> s.worker.next <= |q.items|)
    && (forall i :: 0 <= i < |q.items| ==> (q.items[i].state.Importing? <==> s.worker == InExport(i)))
    && (forall i :: 0 <= i < |q.items| && i < Frontier(s) ==> Settled(q.items[i]))
    && (q.syncing ==> forall i :: 0 <= i < |q.items| ==> !q.items[i].state.Waiting? && !q.items[i].state.Receiving?)
  }

  /** Items before this index have been handled by the running worker. */
  function Frontier(s: System): nat {
    match s.worker
    case AtItem(i) => i
    case InExport(i) => i
    case _ => 0
  }

  predicate UploadIsolated(s: System) {
    s.wifi.Uploading? ==>
      var q, w := s.queue, s.wifi;
      && !q.syncing
      && w.index < |q.items|
      && w.received <= w.expected
      && q.items[w.index].state.Receiving?
      && w.expected == (if w.sidecar then q.items[w.index].meta.subtitleSize else q.items[w.index].meta.size)
      && !(if w.sidecar then q.items[w.index].subtitleReady else q.items[w.index].mediaReady)
  }

  predicate Invariant(s: System) {
    Accounting(s) && Lifecycle(s) && WorkerIsolated(s) && UploadIsolated(s)
  }

  // ---- the invariant is inductive ----

  lemma {:induction false} FreshSums(metas: seq<Metadata>, items: seq<Item>)
    requires |items| == |metas|
    requires forall i :: 0 <= i < |metas| ==> items[i] == Fresh(metas[i])
    ensures Sum(items, ReceivedBytes) == 0
    ensures Sum(items, DeclaredBytes) == DeclaredTotal(metas)
    ensures Sum(items, ImportedWeight) == 0
    ensures Sum(items, FailedWeight) == 0
  {
    if metas != [] {
      FreshSums(metas[1..], items[1..]);
    }
  }

  /** One item changed: the counters follow if they changed by what the item did. */
  lemma {:induction false} AccountingChange(s: System, s': System, i: nat, item: Item)
    requires Accounting(s) && i < |s.queue.items|
    requires s'.queue.items == s.queue.items[i := item]
    requires item.meta == s.queue.items[i].meta && s'.queue.total == s.queue.total
    requires s'.queue.transferred == s.queue.transferred - s.queue.items[i].received + item.received
    requires s'.queue.imported == s.queue.imported - ImportedWeight(s.queue.items[i]) + ImportedWeight(item)
    requires s'.queue.failed - s'.retries
          == s.queue.failed - s.retries - FailedWeight(s.queue.items[i]) + FailedWeight(item)
    ensures Accounting(s')
  {
    SumUpdate(s.queue.items, ReceivedBytes, i, item);
    SumUpdate(s.queue.items, DeclaredBytes, i, item);
    SumUpdate(s.queue.items, ImportedWeight, i, item);
    SumUpdate(s.queue.items, FailedWeight, i, item);
  }

  /** No addition or subtraction on the byte counters can wrap. */
  lemma {:induction false} BytesBounded(items: seq<Item>)
    requires |items| <= QUEUE_MAX
    requires forall i :: 0 <= i < |items| ==> ItemSound(items[i])
    ensures Sum(items, ReceivedBytes) <= Sum(items, DeclaredBytes)
    ensures Sum(items, DeclaredBytes) <= QUEUE_MAX * (MAX_MEDIA + MAX_SUBTITLE) < U64
    ensures forall i :: 0 <= i < |items| ==> items[i].received <= Sum(items, ReceivedBytes)
  {
    SumOrdered(items, ReceivedBytes, DeclaredBytes);
    SumBounded(items, DeclaredBytes, MAX_MEDIA + MAX_SUBTITLE);
    assert |items| * (MAX_MEDIA + MAX_SUBTITLE) <= QUEUE_MAX * (MAX_MEDIA + MAX_SUBTITLE);
    forall i | 0 <= i < |items| ensures items[i].received <= Sum(items, ReceivedBytes) {
      SumUpdate(items, ReceivedBytes, i, items[i].(received := 0));
    }
  }

  lemma {:induction false} PublishStep(s: System, id: Text, metas: seq<Metadata>)
    requires Invariant(s)
    ensures Invariant(Next(s, Publish(id, metas)))
  {
    var s' := Next(s, Publish(id, metas));
    if s' != s {
      FreshSums(metas, s'.queue.items);
    }
  }

  /** One item changed, keeping its metadata: the lifecycle of the others is untouched. */
  lemma {:induction false} ItemChange(s: System, s': System, i: nat, item: Item)
    requires Lifecycle(s) && i < |s.queue.items|
    requires s'.queue.items == s.queue.items[i := item]
    requires item.meta == s.queue.items[i].meta && ItemSound(item)
    requires |s'.exports| == |s.exports|
    requires s'.exports[i] == if Exported(item) then 1 else 0
    requires forall j :: 0 <= j < |s.exports| && j != i ==> s'.exports[j] == s.exports[j]
    ensures Lifecycle(s')
  {
    var items, items' := s.queue.items, s'.queue.items;
    forall j | 0 <= j < |items'|
      ensures ItemSound(items'[j]) && items'[j].meta.id == items[j].meta.id
      ensures s'.exports[j] == if Exported(items'[j]) then 1 else 0
    {
      assert items'[j] == if j == i then item else items[j];
    }
  }

  lemma {:induction false} BeginUploadStep(s: System, name: Text, size: nat)
    requires Invariant(s)
    ensures Invariant(Next(s, BeginUpload(name, size)))
  {
    var s' := Next(s, BeginUpload(name, size));
    if s' != s {
      var i := IndexOf(s.queue.items, name);
      AccountingChange(s, s', i, s'.queue.items[i]);
      ItemChange(s, s', i, s'.queue.items[i]);
    }
  }

  /** The modular updates of the byte counters are exact. */
  lemma {:induction false} ProgressValue(s: System, i: nat, received: nat, sidecar: bool)
    requires Accounting(s) && Lifecycle(s) && i < |s.queue.items|
    requires received <= if sidecar then s.queue.items[i].meta.subtitleSize else s.queue.items[i].meta.size
    ensures var item, q' := s.queue.items[i], AfterProgress(s.queue, i, received, sidecar);
            var value := received + if sidecar && item.mediaReady then item.meta.size else 0;
            && value <= DeclaredBytes(item)
            && q'.items == s.queue.items[i := item.(received := value)]
            && q'.transferred == s.queue.transferred - item.received + value
  {
    var items := s.queue.items;
    var item := items[i];
    assert ItemSound(item);
    var value := received + if sidecar && item.mediaReady then item.meta.size else 0;
    var item' := item.(received := value);
    assert ItemSound(item');
    BytesBounded(items);
    SumUpdate(items, ReceivedBytes, i, item');
    BytesOfUpdate(items, i, item');
  }

  lemma {:induction false} BytesOfUpdate(items: seq<Item>, i: nat, item: Item)
    requires |items| <= QUEUE_MAX && i < |items|
    requires forall j :: 0 <= j < |items| ==> ItemSound(items[j])
    requires ItemSound(item)
    ensures Sum(items[i := item], ReceivedBytes) < U64
  {
    BytesBounded(items[i := item]);
  }

  lemma {:induction false} ProgressStep(s: System, count: nat)
    requires Invariant(s)
    ensures Invariant(Next(s, Progress(count)))
  {
    var s' := Next(s, Progress(count));
    if s' != s {
      var i := s.wifi.index;
      ProgressValue(s, i, s.wifi.received + count, s.wifi.sidecar);
      AccountingChange(s, s', i, s'.queue.items[i]);
      ItemChange(s, s', i, s'.queue.items[i]);
      assert WorkerIsolated(s');
    }
  }

  lemma {:induction false} EndUploadStep(s: System, error: int)
    requires Invariant(s)
    ensures Invariant(Next(s, EndUpload(error)))
  {
    var s' := Next(s, EndUpload(error));
    if s' != s {
      var i := s.wifi.index;
      AccountingChange(s, s', i, s'.queue.items[i]);
      ItemChange(s, s', i, s'.queue.items[i]);
      assert WorkerIsolated(s');
    }
  }

  lemma {:induction false} ImportBeginsStep(s: System, s': System)
    requires Invariant(s) && s.worker.AtItem? && s.worker.next < |s.queue.items|
    requires s.queue.items[s.worker.next].state.Received? && !s.queue.cancelled
    requires s' == Next(s, WorkerLocks)
    ensures Invariant(s')
  {
    var i := s.worker.next;
    var item := s.queue.items[i];
    assert ItemSound(item) && !Exported(item);
    AccountingChange(s, s', i, s'.queue.items[i]);
    ItemChange(s, s', i, s'.queue.items[i]);
    ImportBeginsIsolated(s, s');
  }

  lemma {:induction false} ImportBeginsIsolated(s: System, s': System)
    requires WorkerIsolated(s) && s.worker.AtItem? && s.worker.next < |s.queue.items|
    requires s'.queue == AfterImportBegins(s.queue, s.worker.next)
    requires s'.worker == InExport(s.worker.next) && s'.pollSawSync == s.pollSawSync
    ensures WorkerIsolated(s')
  {
  }

  lemma {:induction false} WorkerLocksStep(s: System)
    requires Invariant(s)
    ensures Invariant(Next(s, WorkerLocks))
  {
    var s' := Next(s, WorkerLocks);
    if s'.worker.InExport? && s' != s {
      ImportBeginsStep(s, s');
    } else if s'.worker.AtItem? && s' != s {
      var i := s.worker.next;
      assert Settled(s.queue.items[i]);
    }
  }

  lemma {:induction false} ExportReturnsStep(s: System, status: int)
    requires Invariant(s)
    ensures Invariant(Next(s, ExportReturns(status)))
  {
    var s' := Next(s, ExportReturns(status));
    if s' != s {
      var i := s.worker.current;
      AccountingChange(s, s', i, s'.queue.items[i]);
      ItemChange(s, s', i, s'.queue.items[i]);
      assert WorkerIsolated(s');
    }
  }

  lemma {:induction false} StepPreservesInvariant(s: System, e: Event)
    requires Invariant(s)
    ensures Invariant(Next(s, e))
  {
    match e
    case Publish(id, metas) => PublishStep(s, id, metas);
    case BeginUpload(name, size) => BeginUploadStep(s, name, size);
    case Progress(count) => ProgressStep(s, count);
    case EndUpload(error) => EndUploadStep(s, error);
    case RequestSync =>
    case Cancel =>
    case Poll =>
    case StartWorker(_) =>
    case WorkerLocks => WorkerLocksStep(s);
    case ExportReturns(status) => ExportReturnsStep(s, status);
  }

  lemma {:induction false} RunPreservesInvariant(s: System, events: seq<Event>)
    requires Invariant(s)
    ensures Invariant(Run(s, events))
  {
    if events != [] {
      RunPreservesInvariant(s, events[..|events| - 1]);
      StepPreservesInvariant(Run(s, events[..|events| - 1]), events[|events| - 1]);
    }
  }
}
