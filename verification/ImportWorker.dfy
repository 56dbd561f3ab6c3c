/**
  The import worker on the shared queue (`vcm_queue_run_imports` in src/vita/sync_queue.c) while the
  interface and the Wi-Fi thread act on the same queue between its locked regions.
 */
module ImportWorker {
  import opened Bytes
  import opened TransferQueue
  import opened TransferRuns

  /** Everything but the worker's own regions. */
  predicate NotWorker(e: Event) { !e.WorkerLocks? && !e.ExportReturns? }

  predicate Working(s: System) { s.worker.AtItem? || s.worker.InExport? }

  /** While the worker runs, no other actor moves it or replaces the list of files. */
  lemma {:induction false} OthersKeepWorker(s: System, e: Event)
    requires Invariant(s) && Working(s) && NotWorker(e)
    ensures Next(s, e).worker == s.worker && |Next(s, e).queue.items| == |s.queue.items|
  {
    hide Sum;
  }

  /** The queue in memory and the system whose queue it is. */
  class Device {
    const queue: SharedQueue
    var system: System
    /** What happened since the worker was started. */
    ghost var events: seq<Event>

    constructor (queue: SharedQueue, system: System)
      requires queue.Valid() && queue.View() == system.queue
      ensures this.queue == queue && this.system == system && events == []
    {
      this.queue, this.system, events := queue, system, [];
    }

    /** The memory shows the queue of a run from `start`, in which the invariant holds. */
    ghost predicate Tracks(start: System)
      reads this, queue, queue.items
    {
      queue.Valid() && queue.View() == system.queue && system == Run(start, events) && Invariant(system)
    }

    /** Records the event whose effect on the queue has just been made. */
    method Record(e: Event, ghost start: System)
      requires queue.Valid() && system == Run(start, events) && Invariant(system) && queue.View() == Next(system, e).queue
      modifies this`system, this`events
      ensures Tracks(start) && system == Next(old(system), e) && events == old(events) + [e]
    {
      hide Next, Invariant;
      StepPreservesInvariant(system, e);
      assert (events + [e])[..|events|] == events;
      system := Next(system, e);
      events := events + [e];
    }

    /** A step of the interface. */
    method InterfaceActs(which: int, started: bool, ghost start: System) returns (e: Event)
      requires Tracks(start)
      modifies this`system, this`events, queue, queue.items
      ensures Tracks(start) && NotWorker(e) && system == Next(old(system), e)
    {
      hide Invariant, AfterCancel, Next;
      e := if which == 0 then Event.Cancel else if which == 1 then Poll else StartWorker(started);
      InterfaceQueue(system, e);
      if which == 0 || (which != 1 && system.pollSawSync && !started) { queue.Cancel(); }
      Record(e, start);
    }

    lemma {:induction false} InterfaceQueue(s: System, e: Event)
      requires e.Cancel? || e.Poll? || e.StartWorker?
      ensures Next(s, e).queue ==
                if e.Cancel? || (e.StartWorker? && s.pollSawSync && !e.started) then AfterCancel(s.queue) else s.queue
    {
      hide AfterCancel;
    }

    /** A request of the Wi-Fi thread that changes no upload in progress. */
    method RequestArrives(sync: bool, id: Text, metas: seq<Metadata>, ghost start: System) returns (e: Event)
      requires Tracks(start)
      modifies this`system, this`events, queue, queue.items
      ensures Tracks(start) && NotWorker(e) && system == Next(old(system), e)
    {
      hide Invariant, AfterSync, AfterPublish, PublishAccepted, Publishable;
      e := if sync then RequestSync else Event.Publish(id, metas);
      if system.wifi.Idle? {
        if sync {
          var _ := queue.Sync();
        } else if Publishable(metas) {
          PublishableSize(metas);
          var _ := queue.Publish(id, metas, DeclaredTotal(metas));
          RefusedIsUnchanged(system.queue, id, metas);
        }
      }
      Record(e, start);
    }

    lemma {:induction false} PublishableSize(metas: seq<Metadata>)
      requires Publishable(metas)
      ensures 1 <= |metas| <= QUEUE_MAX
    {
    }

    lemma {:induction false} RefusedIsUnchanged(q: Queue, id: Text, metas: seq<Metadata>)
      ensures !PublishAccepted(q) ==> AfterPublish(q, id, metas, DeclaredTotal(metas)) == q
    {
    }

    /** A step of an upload. */
    method UploadActs(which: int, name: Text, number: nat, error: int, ghost start: System) returns (e: Event)
      requires Tracks(start)
      modifies this`system, this`events, queue, queue.items
      ensures Tracks(start) && NotWorker(e) && system == Next(old(system), e)
    {
      hide Invariant, AfterFind, AfterProgress, AfterReceived, Next;
      e := if which == 0 then BeginUpload(name, number) else if which == 1 then Event.Progress(number) else EndUpload(error);
      var acts := Acts(system, e);
      UploadQueue(system, e);
      if acts {
        if e.BeginUpload? {
          var _, _ := queue.Find(name, number);
        } else if e.Progress? {
          queue.Progress(system.wifi.index, system.wifi.received + number, system.wifi.sidecar);
        } else {
          queue.Receive(system.wifi.index, system.wifi.sidecar, error);
        }
      }
      Record(e, start);
    }

    /** The request thread makes the call. */
    predicate Acts(s: System, e: Event)
      requires e.BeginUpload? || e.Progress? || e.EndUpload?
    {
      match e
      case BeginUpload(_, size) => s.wifi.Idle? && 0 < size <= MAX_MEDIA
      case Progress(count) =>
        s.wifi.Uploading? && s.wifi.index < |s.queue.items| && 0 < count <= s.wifi.expected - s.wifi.received
      case EndUpload(error) =>
        s.wifi.Uploading? && s.wifi.index < |s.queue.items| && (error == 0 ==> s.wifi.received == s.wifi.expected)
    }

    lemma {:induction false} UploadQueue(s: System, e: Event)
      requires e.BeginUpload? || e.Progress? || e.EndUpload?
      ensures Next(s, e).queue ==
                if !Acts(s, e) then s.queue
                else match e
                  case BeginUpload(name, size) => AfterFind(s.queue, name, size)
                  case Progress(count) => AfterProgress(s.queue, s.wifi.index, s.wifi.received + count, s.wifi.sidecar)
                  case EndUpload(error) => AfterReceived(s.queue, s.wifi.index, s.wifi.sidecar, error)
    {
      hide AfterProgress, AfterReceived, FindAccepted, AfterFind;
      if e.BeginUpload? { NotFoundIsUnchanged(s.queue, e.name, e.size); }
    }

    lemma {:induction false} NotFoundIsUnchanged(q: Queue, name: Text, size: nat)
      ensures !FindAccepted(q, name, size) ==> AfterFind(q, name, size) == q
    {
    }

    /** Any number of steps of the other actors, while the worker is between two locked regions. */
    method OthersAct(ghost start: System)
      requires Tracks(start) && Working(system)
      modifies this`system, this`events, queue, queue.items
      ensures Tracks(start) && system.worker == old(system).worker
      ensures |system.queue.items| == |old(system).queue.items|
    {
      hide Invariant, Next, Tracks;
      var steps: int := *;
      while steps > 0
        invariant Tracks(start) && system.worker == old(system).worker
        invariant |system.queue.items| == |old(system).queue.items|
      {
        var actor: int, which: int, flag: bool, number: nat, error: int := *, *, *, *, *;
        var text: Text, metas: seq<Metadata> := *, *;
        ghost var before := system;
        TracksInvariant(start);
        var e;
        if actor == 0 {
          e := InterfaceActs(which, flag, start);
        } else if actor == 1 {
          e := RequestArrives(flag, text, metas, start);
        } else {
          e := UploadActs(which, text, number, error, start);
        }
        OthersKeepWorker(before, e);
        steps := steps - 1;
      }
    }

    lemma {:induction false} TracksInvariant(start: System)
      requires Tracks(start)
      ensures Invariant(system) && queue.Valid() && queue.View() == system.queue
    {
    }

    /** The first locked region at item i, and whether the loop goes on or imports. */
    method LocksItem(i: nat, ghost start: System) returns (claim: Claim)
      requires Tracks(start) && system.worker == AtItem(i)
      modifies this`system, this`events, queue, queue.items
      ensures Tracks(start) && Located(system, claim, i)
      ensures |system.queue.items| == |old(system).queue.items|
    {
      hide Invariant, AfterImportBegins, AfterImportsStop;
      claim := queue.LockItem(i);
      LockIsStep(system, i, claim);
      Record(WorkerLocks, start);
    }

    /** The worker is done, at the next item, or in the export of this one. */
    ghost predicate Located(s: System, claim: Claim, i: nat) {
      match claim
      case Stop => s.worker.WorkerDone? && !s.queue.syncing && s.queue.importing == -1
      case Pass => s.worker == AtItem(i + 1) && i < |s.queue.items|
      case Take => s.worker == InExport(i) && i < |s.queue.items|
    }

    lemma {:induction false} LockIsStep(s: System, i: nat, claim: Claim)
      requires s.worker == AtItem(i)
      requires claim.Stop? <==> i >= |s.queue.items| || s.queue.cancelled
      requires claim.Take? <==> i < |s.queue.items| && !s.queue.cancelled && s.queue.items[i].state.Received?
      ensures var q, r := s.queue, Next(s, WorkerLocks);
              && r.queue == (if claim.Stop? then AfterImportsStop(q) else if claim.Take? then AfterImportBegins(q, i) else q)
              && |r.queue.items| == |q.items| && Located(r, claim, i)
    {
    }

    /** The second locked region, with whatever the import returned. */
    method Concludes(i: nat, ghost start: System)
      requires Tracks(start) && system.worker == InExport(i) && i < |system.queue.items|
      modifies this`system, this`events, queue, queue.items
      ensures Tracks(start) && system.worker == AtItem(i + 1)
      ensures |system.queue.items| == |old(system).queue.items|
    {
      hide Invariant, AfterImportEnds;
      var status: int := *;
      ConcludeIsStep(system, i, status);
      queue.Conclude(i, status);
      Record(ExportReturns(status), start);
    }

    lemma {:induction false} ConcludeIsStep(s: System, i: nat, status: int)
      requires s.worker == InExport(i) && i < |s.queue.items|
      ensures var r := Next(s, ExportReturns(status));
              r.queue == AfterImportEnds(s.queue, i, status) && r.worker == AtItem(i + 1)
              && |r.queue.items| == |s.queue.items|
    {
    }

    /**
      The import loop. Whatever the other actors do between its locked regions and during an import,
      its regions are the worker's steps of one run, and it ends with the worker done.
     */
    method RunImports(ghost start: System)
      requires Tracks(start) && system.worker == AtItem(0)
      modifies this`system, this`events, queue, queue.items
      ensures Tracks(start) && system.worker.WorkerDone? && !system.queue.syncing && system.queue.importing == -1
    {
      hide Invariant, Tracks;
      var i := 0;
      var claim := Pass;
      while !claim.Stop?
        invariant Tracks(start)
        invariant if claim.Stop? then Located(system, Stop, 0) else system.worker == AtItem(i) && i <= |system.queue.items|
        decreases !claim.Stop?, |system.queue.items| - i
      {
        OthersAct(start);
        claim := LocksItem(i, start);
        if claim.Take? {
          OthersAct(start);
          Concludes(i, start);
        }
        i := i + 1;
      }
    }
  }
}
