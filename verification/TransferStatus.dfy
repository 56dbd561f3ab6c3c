/** What the queue shows of its work: bytes, errors, the item being imported, and the published files. */
module TransferStatus {
  import opened Bytes
  import opened TransferQueue
  import opened TransferRuns

  /** The bytes of an item that an upload at `received` stands for; a sidecar follows its media. */
  function ShownBytes(item: Item, sidecar: bool, received: nat): nat {
    received + if sidecar && item.mediaReady then item.meta.size else 0
  }

  /** An error is recorded exactly while it matters. */
  predicate ErrorSound(item: Item) {
    && (item.state.Failed? ==> item.error != 0)
    && (item.state.Waiting? || item.state.Received? || item.state.Importing? || item.state.Imported? ==> item.error == 0)
  }

  predicate Shown(s: System) {
    && (forall i :: 0 <= i < |s.queue.items| ==> ErrorSound(s.queue.items[i]))
    && (s.wifi.Uploading? && s.wifi.received > 0 ==>
          && s.wifi.index < |s.queue.items|
          && s.queue.items[s.wifi.index].received
             == ShownBytes(s.queue.items[s.wifi.index], s.wifi.sidecar, s.wifi.received))
    && (s.worker.InExport? ==> s.queue.importing == s.worker.current)
    && (s.worker.NoWorker? || s.worker.WorkerDone? ==> s.queue.importing == -1)
  }

  lemma {:induction false} ShownUploads(s: System, e: Event)
    requires Invariant(s) && Shown(s) && (e.BeginUpload? || e.EndUpload?)
    ensures Shown(Next(s, e))
  {
    hide Sum;
  }

  lemma {:induction false} ShownProgress(s: System, e: Event)
    requires Invariant(s) && Shown(s) && e.Progress?
    ensures Shown(Next(s, e))
  {
    hide Sum;
    if Next(s, e) != s {
      var i := s.wifi.index;
      assert ItemSound(s.queue.items[i]);
    }
  }

  lemma {:induction false} ShownWorker(s: System, e: Event)
    requires Invariant(s) && Shown(s) && (e.WorkerLocks? || e.ExportReturns?)
    ensures Shown(Next(s, e))
  {
    hide Sum;
  }

  lemma {:induction false} ShownStep(s: System, e: Event)
    requires Invariant(s) && Shown(s)
    ensures Shown(Next(s, e))
  {
    if e.BeginUpload? || e.EndUpload? {
      ShownUploads(s, e);
    } else if e.Progress? {
      ShownProgress(s, e);
    } else if e.WorkerLocks? || e.ExportReturns? {
      ShownWorker(s, e);
    } else {
      ShownOthers(s, e);
    }
  }

  lemma {:induction false} ShownOthers(s: System, e: Event)
    requires Invariant(s) && Shown(s) && (e.Publish? || e.RequestSync? || e.Cancel? || e.Poll? || e.StartWorker?)
    ensures Shown(Next(s, e))
  {
    hide Sum;
  }

  /** In every reachable state errors, bytes of the running upload and the imported item are shown truthfully. */
  lemma {:induction false} StatusIsTruthful(events: seq<Event>)
    ensures Shown(Run(INITIAL, events)) && Invariant(Run(INITIAL, events))
  {
    hide Next, Shown, Invariant;
    if events == [] {
      ShownInitially();
    } else {
      var front := events[..|events| - 1];
      StatusIsTruthful(front);
      ShownStep(Run(INITIAL, front), events[|events| - 1]);
      StepPreservesInvariant(Run(INITIAL, front), events[|events| - 1]);
    }
  }

  lemma {:induction false} ShownInitially()
    ensures Shown(INITIAL) && Invariant(INITIAL)
  {
  }

  /**
    How an upload ends: a failure fails the item with its code; a success marks its part, and the item is
    received exactly when all parts are there. Its bytes then add up to what was declared if and only if
    the sidecar came last or there is none.
   */
  lemma {:induction false} UploadEndsTruthfully(events: seq<Event>, error: int)
    requires var s := Run(INITIAL, events);
             s.wifi.Uploading? && (error == 0 ==> s.wifi.received == s.wifi.expected)
    ensures var s, s' := Run(INITIAL, events), Next(Run(INITIAL, events), EndUpload(error));
            var w := s.wifi;
            && w.index < |s'.queue.items| == |s.queue.items| && s'.wifi.Idle?
            && var item := s'.queue.items[w.index];
               && item.error == error
               && (error != 0 ==> item.state.Failed?)
               && (error == 0 ==>
                     && (if w.sidecar then item.subtitleReady else item.mediaReady)
                     && (item.state.Received? <==> Complete(item)) && (item.state.Receiving? <==> !Complete(item)))
               && (error == 0 && Complete(item) && w.expected > 0 ==>
                     (item.received == DeclaredBytes(item) <==> w.sidecar || item.meta.subtitleSize == 0))
  {
    hide Run, Sum;
    StatusIsTruthful(events);
    var s := Run(INITIAL, events);
    assert ItemSound(s.queue.items[s.wifi.index]);
  }

  /** An accepted publication stores exactly its files, fresh, under its id, and nothing is left of the old ones. */
  lemma {:induction false} PublicationIsStored(s: System, id: Text, metas: seq<Metadata>)
    requires s.wifi.Idle? && Publishable(metas) && PublishAccepted(s.queue)
    ensures var q := Next(s, Publish(id, metas)).queue;
            && q.id == id && |q.items| == |metas| && !q.syncing && !q.cancelled && q.importing == -1
            && q.transferred == 0 && q.imported == 0 && q.failed == 0
            && forall i :: 0 <= i < |metas| ==>
                 && q.items[i].meta == metas[i] && q.items[i].state.Waiting? && q.items[i].received == 0
                 && q.items[i].error == 0 && !q.items[i].mediaReady && !q.items[i].subtitleReady
  {
  }

  /** A sync is granted if and only if no upload runs and every file of a live queue was received or failed. */
  lemma {:induction false} SyncIsGrantedExactly(s: System)
    ensures Next(s, RequestSync).queue.syncing <==>
              || s.queue.syncing
              || (&& s.wifi.Idle? && !s.queue.cancelled && |s.queue.items| > 0
                  && forall i :: 0 <= i < |s.queue.items| ==> s.queue.items[i].state in {Received, Failed})
  {
  }

  /** Whoever polls the revision sees every change of the queue. */
  lemma {:induction false} ChangesShowInTheRevision(s: System, e: Event)
    ensures Next(s, e).queue != s.queue ==> Next(s, e).queue.revision != s.queue.revision
  {
    assert Bump(s.queue.revision) != s.queue.revision;
  }
}
