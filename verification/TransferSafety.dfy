/** What holds in every run of the transfer queue and its three actors. */
module TransferSafety {
  import opened Bytes
  import opened TransferQueue
  import opened TransferRuns

  lemma {:induction false} ReachableInvariant(events: seq<Event>)
    ensures Invariant(Run(INITIAL, events))
  {
    RunPreservesInvariant(INITIAL, events);
  }

  /** Byte and item counters, in every reachable state; no 64-bit counter ever wraps. */
  lemma {:induction false} CountersAreExact(events: seq<Event>)
    ensures var s := Run(INITIAL, events);
            var q := s.queue;
            && q.transferred == Sum(q.items, ReceivedBytes) <= q.total
            && q.total == Sum(q.items, DeclaredBytes) < U64
            && q.imported == Sum(q.items, ImportedWeight)
            && q.failed == Sum(q.items, FailedWeight) + s.retries
            && (forall i :: 0 <= i < |q.items| ==> q.items[i].received <= DeclaredBytes(q.items[i]))
  {
    ReachableInvariant(events);
    var s := Run(INITIAL, events);
    BytesBounded(s.queue.items);
    assert forall i :: 0 <= i < |s.queue.items| ==> ItemSound(s.queue.items[i]);
  }

  /** An item that reached Received, Importing or Imported has all its declared parts. */
  lemma {:induction false} LateStatesAreComplete(events: seq<Event>, i: nat)
    requires i < |Run(INITIAL, events).queue.items|
    ensures var item := Run(INITIAL, events).queue.items[i];
            && (item.state.Received? || item.state.Importing? || item.state.Imported? ==> Complete(item))
            && (item.state.Waiting? || item.state.Receiving? ==> !Complete(item))
  {
    ReachableInvariant(events);
    assert ItemSound(Run(INITIAL, events).queue.items[i]);
  }

  /** Imports exclude each other, uploads, and the replacement of the items. */
  lemma {:induction false} ImportExclusion(events: seq<Event>, i: nat)
    requires i < |Run(INITIAL, events).queue.items|
    requires Run(INITIAL, events).queue.items[i].state.Importing?
    ensures var s := Run(INITIAL, events);
            && s.queue.syncing && s.wifi.Idle? && !PublishAccepted(s.queue)
            && forall j :: 0 <= j < |s.queue.items| && j != i ==> !s.queue.items[j].state.Importing?
  {
    ReachableInvariant(events);
  }

  predicate InUse(s: System) {
    s.wifi.Uploading? || exists i :: 0 <= i < |s.queue.items| && s.queue.items[i].state.Importing?
  }

  /** The published files, which only a publication changes. */
  predicate SameFiles(s: System, s': System) {
    && |s'.queue.items| == |s.queue.items|
    && s'.queue.id == s.queue.id && s'.queue.total == s.queue.total
    && forall i :: 0 <= i < |s.queue.items| ==> s'.queue.items[i].meta == s.queue.items[i].meta
  }

  /** Between a find and its received, and during an import, no step replaces the items. */
  lemma {:induction false} QueueInUseIsNotReplaced(events: seq<Event>, e: Event)
    requires InUse(Run(INITIAL, events))
    ensures SameFiles(Run(INITIAL, events), Next(Run(INITIAL, events), e))
    ensures Next(Run(INITIAL, events), e).publications == Run(INITIAL, events).publications
  {
    ReachableInvariant(events);
    var s := Run(INITIAL, events);
    if !s.wifi.Uploading? {
      var i :| 0 <= i < |s.queue.items| && s.queue.items[i].state.Importing?;
      ImportExclusion(events, i);
    }
    StepKeepsFiles(s, e);
  }

  lemma {:induction false} StepKeepsFiles(s: System, e: Event)
    ensures s.publications <= Next(s, e).publications
    ensures Next(s, e).publications == s.publications ==> SameFiles(s, Next(s, e))
  {
  }

  // ---- what one publication keeps ----

  /** The changes that one step may make to an item while the publication stays. */
  predicate ItemMayBecome(before: Item, after: Item, cancelled: bool) {
    && after.meta == before.meta
    && (before.state.Imported? ==> after.state.Imported?)
    && (Exported(before) ==> Exported(after))
    && (before.mediaReady ==> after.mediaReady) && (before.subtitleReady ==> after.subtitleReady)
    && (cancelled && after.state.Receiving? ==> before.state.Receiving?)
    && (cancelled && after.state.Importing? ==> before.state.Importing?)
  }

  predicate Follows(s: System, s': System) {
    && |s'.queue.items| == |s.queue.items|
    && (s.queue.cancelled ==> s'.queue.cancelled)
    && forall i :: 0 <= i < |s.queue.items| ==> ItemMayBecome(s.queue.items[i], s'.queue.items[i], s.queue.cancelled)
  }

  lemma {:induction false} BeginUploadFollows(s: System, e: Event)
    requires Invariant(s) && e.BeginUpload?
    ensures Follows(s, Next(s, e))
  {
    if Next(s, e) != s {
      var i := IndexOf(s.queue.items, e.name);
      assert ItemSound(s.queue.items[i]);
    }
  }

  lemma {:induction false} UploadEventsFollow(s: System, e: Event)
    requires Invariant(s) && (e.BeginUpload? || e.Progress? || e.EndUpload?)
    ensures Follows(s, Next(s, e))
  {
    if e.BeginUpload? {
      BeginUploadFollows(s, e);
    }
  }

  lemma {:induction false} StepFollows(s: System, e: Event)
    requires Invariant(s)
    requires Next(s, e).publications == s.publications
    ensures Follows(s, Next(s, e))
  {
    if e.BeginUpload? || e.Progress? || e.EndUpload? {
      UploadEventsFollow(s, e);
    } else if e.ExportReturns? && Next(s, e) != s {
      assert ItemSound(s.queue.items[s.worker.current]);
    }
  }

  lemma {:induction false} FollowsComposes(a: System, b: System, c: System)
    requires Follows(a, b) && Follows(b, c)
    ensures Follows(a, c)
  {
    forall i | 0 <= i < |a.queue.items|
      ensures ItemMayBecome(a.queue.items[i], c.queue.items[i], a.queue.cancelled)
    {
      assert ItemMayBecome(a.queue.items[i], b.queue.items[i], a.queue.cancelled);
      assert ItemMayBecome(b.queue.items[i], c.queue.items[i], b.queue.cancelled);
    }
  }

  lemma {:induction false} RunFollows(s: System, events: seq<Event>)
    requires Invariant(s)
    ensures Run(s, events).publications >= s.publications
    ensures Run(s, events).publications == s.publications ==> Follows(s, Run(s, events))
  {
    if events != [] {
      var before, e := events[..|events| - 1], events[|events| - 1];
      RunFollows(s, before);
      RunPreservesInvariant(s, before);
      var mid := Run(s, before);
      StepKeepsFiles(mid, e);
      if Next(mid, e).publications == s.publications {
        StepFollows(mid, e);
        FollowsComposes(s, mid, Next(mid, e));
      }
    }
  }

  /** Imported never ends, and each item is imported at most once per publication. */
  lemma {:induction false} ImportsHappenOnce(events: seq<Event>, more: seq<Event>, i: nat)
    requires var s := Run(INITIAL, events); i < |s.queue.items|
    requires Run(Run(INITIAL, events), more).publications == Run(INITIAL, events).publications
    ensures var s, s' := Run(INITIAL, events), Run(Run(INITIAL, events), more);
            && i < |s'.queue.items| && |s'.exports| == |s'.queue.items| && |s.exports| == |s.queue.items|
            && (s.queue.items[i].state.Imported? ==> s'.queue.items[i].state.Imported?)
            && s.exports[i] <= s'.exports[i] <= 1
  {
    ReachableInvariant(events);
    var s := Run(INITIAL, events);
    RunFollows(s, more);
    RunPreservesInvariant(s, more);
    assert ItemMayBecome(s.queue.items[i], Run(s, more).queue.items[i], s.queue.cancelled);
  }

  // ---- cancelling ----

  /** The interface cancels: at the user's wish, or because the worker it meant to start did not. */
  predicate Cancels(s: System, e: Event) {
    e.Cancel? || (e.StartWorker? && !e.started && s.pollSawSync)
  }

  /** A publication that replaces the queue. */
  predicate Replaces(s: System, e: Event) {
    e.Publish? && s.wifi.Idle? && Publishable(e.metas) && PublishAccepted(s.queue)
  }

  ghost predicate CancelledAt(events: seq<Event>, i: nat)
    requires i < |events|
  {
    && Cancels(Run(INITIAL, events[..i]), events[i])
    && forall j :: i < j < |events| ==> !Replaces(Run(INITIAL, events[..j]), events[j])
  }

  /** Some cancel stands behind the last publication. */
  ghost predicate CancelStands(events: seq<Event>) {
    exists i :: 0 <= i < |events| && CancelledAt(events, i)
  }

  lemma {:induction false} CancelStandsStep(events: seq<Event>)
    requires events != []
    ensures var n := |events| - 1;
            var s := Run(INITIAL, events[..n]);
            CancelStands(events) <==> Cancels(s, events[n]) || (CancelStands(events[..n]) && !Replaces(s, events[n]))
  {
    hide Run, Cancels, Replaces;
    var n := |events| - 1;
    var front := events[..n];
    assert forall j :: 0 <= j < n ==> front[..j] == events[..j] && front[j] == events[j];
    if CancelStands(events) {
      var i :| 0 <= i < |events| && CancelledAt(events, i);
      if i < n {
        assert CancelledAt(front, i);
      }
    }
    if Cancels(Run(INITIAL, front), events[n]) {
      assert CancelledAt(events, n);
    }
    if CancelStands(front) && !Replaces(Run(INITIAL, front), events[n]) {
      var i :| 0 <= i < |front| && CancelledAt(front, i);
      assert CancelledAt(events, i);
    }
  }

  lemma {:induction false} CancelledStep(s: System, e: Event)
    ensures Next(s, e).queue.cancelled <==> Cancels(s, e) || (s.queue.cancelled && !Replaces(s, e))
  {
  }

  /** Over every run, the queue is cancelled if and only if a cancel stands behind the last publication. */
  lemma {:induction false} CancelledExactly(events: seq<Event>)
    ensures Run(INITIAL, events).queue.cancelled <==> CancelStands(events)
  {
    if events != [] {
      var n := |events| - 1;
      CancelledExactly(events[..n]);
      CancelledStep(Run(INITIAL, events[..n]), events[n]);
      CancelStandsStep(events);
    }
  }

  /**
    From a cancel on, until the next publication, no item starts to be received or imported, no upload
    is accepted and no sync.
   */
  lemma {:induction false} CancelStopsNewWork(events: seq<Event>, more: seq<Event>, i: nat)
    requires i < |Run(INITIAL, events).queue.items|
    requires Run(Next(Run(INITIAL, events), Cancel), more).publications == Run(INITIAL, events).publications
    ensures var s, s' := Run(INITIAL, events), Run(Next(Run(INITIAL, events), Cancel), more);
            && s'.queue.cancelled && |s'.queue.items| == |s.queue.items|
            && (s'.queue.items[i].state.Receiving? ==> s.queue.items[i].state.Receiving?)
            && (s'.queue.items[i].state.Importing? ==> s.queue.items[i].state.Importing?)
            && (forall name, size :: !FindAccepted(s'.queue, name, size)) && !SyncAccepted(s'.queue)
  {
    ReachableInvariant(events);
    var s := Run(INITIAL, events);
    var c := Next(s, Cancel);
    StepPreservesInvariant(s, Cancel);
    CancelOnlyMarks(s);
    RunFollows(c, more);
    assert ItemMayBecome(c.queue.items[i], Run(c, more).queue.items[i], true);
  }

  lemma {:induction false} CancelOnlyMarks(s: System)
    ensures var c := Next(s, Cancel);
            c.queue.cancelled && c.queue.items == s.queue.items && c.publications == s.publications
  {
  }

  // ---- completion ----

  lemma {:induction false} CountsSplit(s: System)
    requires Invariant(s)
    ensures s.queue.imported + s.queue.failed + Sum(s.queue.items, PendingWeight) == |s.queue.items| + s.retries
  {
    SumPartition(s.queue.items, ImportedWeight, FailedWeight, PendingWeight);
  }

  /**
    A worker that stops uncancelled leaves every item imported or failed. The desktop then sees
    imported + failed == count, its completion test, exactly when no failed item was uploaded again.
   */
  lemma {:induction false} UncancelledImportSettlesEverything(events: seq<Event>)
    requires var s := Run(INITIAL, events);
             !s.queue.cancelled && s.worker.AtItem? && Next(s, WorkerLocks).worker.WorkerDone?
    ensures var s := Run(INITIAL, events);
            var q' := Next(s, WorkerLocks).queue;
            && (forall i :: 0 <= i < |q'.items| ==> Settled(q'.items[i]))
            && !q'.syncing
            && q'.imported + q'.failed == |q'.items| + s.retries
            && (q'.imported + q'.failed == |q'.items| <==> s.retries == 0)
  {
    ReachableInvariant(events);
    var s := Run(INITIAL, events);
    SumZero(s.queue.items, PendingWeight);
    CountsSplit(s);
  }

  /** Locked regions the running worker still needs at most. */
  function WorkLeft(s: System): int {
    match s.worker
    case AtItem(i) => 2 * (|s.queue.items| - i) + 1
    case InExport(i) => 2 * (|s.queue.items| - i)
    case _ => 0
  }

  /** Each worker step brings the worker closer to its end, and no other actor sets it back. */
  lemma {:induction false} WorkerMakesProgress(events: seq<Event>, e: Event)
    requires var s := Run(INITIAL, events); s.worker.AtItem? || s.worker.InExport?
    ensures var s := Run(INITIAL, events);
            && 0 < WorkLeft(s)
            && WorkLeft(Next(s, e)) <= WorkLeft(s)
            && ((e.WorkerLocks? && s.worker.AtItem?) || (e.ExportReturns? && s.worker.InExport?)
                ==> WorkLeft(Next(s, e)) < WorkLeft(s))
            && (Next(s, e).worker.AtItem? || Next(s, e).worker.InExport? || (e.WorkerLocks? && Next(s, e).worker.WorkerDone?))
  {
    ReachableInvariant(events);
    StepKeepsFiles(Run(INITIAL, events), e);
  }

  // ---- the publication guard ----

  /**
    A publication replaces a queue that is neither syncing nor cancelled exactly when the items
    still pending are no more than the retries the failure counter never took back.
   */
  lemma {:induction false} PublicationGuard(events: seq<Event>)
    ensures var s := Run(INITIAL, events);
            PublishAccepted(s.queue) <==>
              && !s.queue.syncing
              && (s.queue.cancelled || Sum(s.queue.items, PendingWeight) <= s.retries)
  {
    ReachableInvariant(events);
    var s := Run(INITIAL, events);
    CountsSplit(s);
    SumZero(s.queue.items, PendingWeight);
  }

  /** Without retries, an uncancelled queue is replaced only when every item is settled. */
  lemma {:induction false} UnretriedQueueIsReplacedOnlyWhenSettled(events: seq<Event>)
    requires var s := Run(INITIAL, events);
             s.retries == 0 && !s.queue.cancelled && PublishAccepted(s.queue)
    ensures var q := Run(INITIAL, events).queue;
            forall i :: 0 <= i < |q.items| ==> Settled(q.items[i])
  {
    PublicationGuard(events);
    var q := Run(INITIAL, events).queue;
    SumZero(q.items, PendingWeight);
    forall i | 0 <= i < |q.items| ensures Settled(q.items[i]) {
      assert PendingWeight(q.items[i]) == 0;
    }
  }

  /**
    The guard does not protect a queue once uploads are retried: after one file fails twice, a
    two-file queue is replaced while its other file is still waiting.
   */
  lemma {:induction false} RetriesDefeatTheGuard(id: Text, a: Metadata, b: Metadata)
    requires Publishable([a, b]) && |a.id| == 32 && a.extension != SIDECAR_EXTENSION
    ensures var name := a.id + [DOT] + a.extension;
            var attempt := [BeginUpload(name, a.size), EndUpload(-1)];
            var s := Run(INITIAL, [Publish(id, [a, b])] + attempt + attempt);
            && PublishAccepted(s.queue) && !s.queue.cancelled && !s.queue.syncing
            && |s.queue.items| == 2 && s.queue.items[1] == Fresh(b)
  {
    var name := a.id + [DOT] + a.extension;
    var first, begin, end := Publish(id, [a, b]), BeginUpload(name, a.size), EndUpload(-1);
    var s1 := Next(INITIAL, first);
    assert s1.queue.items == [Fresh(a), Fresh(b)];
    hide Next, Run;
    FailedAttempt(s1, a, b, name);
    FailedAttempt(Next(Next(s1, begin), end), a, b, name);
    RunOfFive(INITIAL, first, begin, end, begin, end);
    assert [first] + [begin, end] + [begin, end] == [first, begin, end, begin, end];
  }

  lemma {:induction false} RunMore(s: System, events: seq<Event>, e: Event)
    ensures Run(s, events + [e]) == Next(Run(s, events), e)
  {
    hide Next;
    assert (events + [e])[..|events|] == events;
  }

  lemma {:induction false} RunNothing(s: System)
    ensures Run(s, []) == s
  {
    hide Next;
  }

  lemma {:induction false} RunOfFive(s: System, a: Event, b: Event, c: Event, d: Event, e: Event)
    ensures Run(s, [a, b, c, d, e]) == Next(Next(Next(Next(Next(s, a), b), c), d), e)
  {
    hide Next, Run;
    RunNothing(s);
    RunMore(s, [], a);
    RunMore(s, [a], b);
    RunMore(s, [a, b], c);
    RunMore(s, [a, b, c], d);
    RunMore(s, [a, b, c, d], e);
    assert [] + [a] == [a] && [a] + [b] == [a, b] && [a, b] + [c] == [a, b, c];
    assert [a, b, c] + [d] == [a, b, c, d] && [a, b, c, d] + [e] == [a, b, c, d, e];
  }

  lemma {:induction false} FailedAttempt(s: System, a: Metadata, b: Metadata, name: Text)
    requires s.wifi.Idle? && !s.queue.cancelled && !s.queue.syncing
    requires |s.queue.items| == 2 && s.queue.items[0].meta == a && s.queue.items[1] == Fresh(b)
    requires !s.queue.items[0].mediaReady && SizesInRange(a)
    requires |a.id| == 32 && a.extension != SIDECAR_EXTENSION && name == a.id + [DOT] + a.extension
    ensures var s' := Next(Next(s, BeginUpload(name, a.size)), EndUpload(-1));
            && s'.wifi.Idle? && !s'.queue.cancelled && !s'.queue.syncing
            && |s'.queue.items| == 2 && s'.queue.items[0].meta == a && s'.queue.items[1] == Fresh(b)
            && !s'.queue.items[0].mediaReady
            && s'.queue.failed == s.queue.failed + 1 && s'.queue.imported == s.queue.imported
  {
    assert name[..32] == a.id && name[33..] == a.extension;
    assert NameMatches(s.queue.items[0], name);
    assert IndexOf(s.queue.items, name) == 0;
  }
}
