/**
  A transfer in which nothing goes wrong: publication, uploads, sync and imports. It leads to an imported item
  for every published file, and the files that can get there are told apart by their metadata.
 */
module TransferDelivery {
  import opened Bytes
  import opened TransferQueue
  import opened TransferRuns
  import QueueFormat

  /** What an upload can be addressed to: an identifier of 32 bytes, and media that are no sidecar. */
  predicate Deliverable(meta: Metadata) { |meta.id| == 32 && meta.extension != SIDECAR_EXTENSION }

  // ---- the events ----

  function MediaName(meta: Metadata): Text { meta.id + [DOT] + meta.extension }

  function SidecarName(meta: Metadata): Text { meta.id + [DOT] + SIDECAR_EXTENSION }

  function Part(name: Text, size: nat): seq<Event> { [BeginUpload(name, size), Progress(size), EndUpload(0)] }

  function Delivery(meta: Metadata): seq<Event> {
    Part(MediaName(meta), meta.size)
      + if meta.subtitleSize > 0 then Part(SidecarName(meta), meta.subtitleSize) else []
  }

  function Deliveries(metas: seq<Metadata>): seq<Event> {
    if metas == [] then [] else Deliveries(metas[..|metas| - 1]) + Delivery(metas[|metas| - 1])
  }

  function Imports(count: nat): seq<Event> {
    if count == 0 then [] else Imports(count - 1) + [WorkerLocks, ExportReturns(0)]
  }

  /** Publish, upload every file and its sidecar, sync, and import every file. */
  function Transfer(id: Text, metas: seq<Metadata>): seq<Event> {
    [Publish(id, metas)] + Deliveries(metas) + [RequestSync, Poll, StartWorker(true)] + Imports(|metas|) + [WorkerLocks, Poll]
  }

  lemma {:induction false} RunConcat(s: System, a: seq<Event>, b: seq<Event>)
    ensures Run(s, a + b) == Run(Run(s, a), b)
  {
    hide Next;
    if b == [] {
      assert a + b == a;
    } else {
      var n := |b| - 1;
      RunConcat(s, a, b[..n]);
      assert (a + b)[..|a + b| - 1] == a + b[..n];
    }
  }

  lemma {:induction false} RunOne(s: System, a: Event)
    ensures Run(s, [a]) == Next(s, a)
  {
    hide Next;
    assert [a][..0] == [];
    assert Run(s, []) == s;
  }

  lemma {:induction false} RunTwo(s: System, a: Event, b: Event)
    ensures Run(s, [a, b]) == Next(Next(s, a), b)
  {
    hide Next;
    RunOne(s, a);
    assert [a, b][..1] == [a];
  }

  lemma {:induction false} RunThree(s: System, a: Event, b: Event, c: Event)
    ensures Run(s, [a, b, c]) == Next(Next(Next(s, a), b), c)
  {
    hide Next;
    RunTwo(s, a, b);
    assert [a, b, c][..2] == [a, b];
  }

  // ---- uploads ----

  /** The queue takes uploads. */
  predicate Open(s: System) { s.wifi.Idle? && !s.queue.cancelled && !s.queue.syncing && !s.pollSawSync }

  /** Only the items changed. */
  predicate Apart(s: System, t: System, items: seq<Item>) {
    t.queue.items == items && t.wifi == s.wifi && t.worker == s.worker && t.pollSawSync == s.pollSawSync
    && t.queue.cancelled == s.queue.cancelled && t.queue.syncing == s.queue.syncing
    && t.queue.imported == s.queue.imported && t.queue.failed == s.queue.failed
  }

  /** An item after a successful upload of one of its parts. */
  function WithPart(item: Item, sidecar: bool, size: nat): Item {
    var bytes := size + if sidecar && item.mediaReady then item.meta.size else 0;
    var ready := if sidecar then item.(subtitleReady := true) else item.(mediaReady := true);
    ready.(received := bytes, error := 0, state := if Complete(ready) then Received else Receiving)
  }

  lemma {:induction false} PartArrives(s: System, i: nat, name: Text, size: nat)
    requires Open(s) && i < |s.queue.items| && IndexOf(s.queue.items, name) == i && Accepts(s.queue.items[i], name, size)
    requires 0 < size <= MAX_MEDIA && SizesInRange(s.queue.items[i].meta)
    ensures Apart(s, Run(s, Part(name, size)), s.queue.items[i := WithPart(s.queue.items[i], IsSidecar(name), size)])
  {
    RunThree(s, BeginUpload(name, size), Progress(size), EndUpload(0));
    hide Run, IndexOf, Accepts;
    var a := Next(s, BeginUpload(name, size));
    assert a.wifi == Uploading(i, IsSidecar(name), size, 0) && |a.queue.items| == |s.queue.items|;
    var b := Next(a, Progress(size));
    assert b.wifi == a.wifi.(received := size);
    var c := Next(b, EndUpload(0));
    assert c.queue.items[i] == WithPart(s.queue.items[i], IsSidecar(name), size);
  }

  /** Items differ in their identifiers, so a name finds its own. */
  lemma {:induction false} NameFinds(items: seq<Item>, i: nat, name: Text)
    requires i < |items| && NameMatches(items[i], name)
    requires forall a, b :: 0 <= a < b < |items| ==> items[a].meta.id != items[b].meta.id
    ensures IndexOf(items, name) == i
  {
    var k := IndexOf(items, name);
    assert k < |items| ==> items[k].meta.id == items[i].meta.id;
  }

  /** An item of which everything has arrived. */
  function Arrived(meta: Metadata): Item {
    Item(meta, meta.size + meta.subtitleSize, Received, 0, true, meta.subtitleSize > 0)
  }

  /** The first k items have arrived, the others wait. */
  predicate Stage(s: System, metas: seq<Metadata>, k: nat) {
    && Open(s) && |s.queue.items| == |metas| && s.queue.imported == 0 && s.queue.failed == 0
    && forall i :: 0 <= i < |metas| ==> s.queue.items[i] == if i < k then Arrived(metas[i]) else Fresh(metas[i])
  }

  lemma {:induction false} NamesFit(meta: Metadata)
    requires Deliverable(meta)
    ensures MediaName(meta)[..32] == meta.id && MediaName(meta)[32] == DOT && MediaName(meta)[33..] == meta.extension
    ensures SidecarName(meta)[..32] == meta.id && SidecarName(meta)[32] == DOT && SidecarName(meta)[33..] == SIDECAR_EXTENSION
    ensures !IsSidecar(MediaName(meta)) && IsSidecar(SidecarName(meta))
  {
  }

  lemma {:induction false} DistinctItems(s: System, metas: seq<Metadata>, items: seq<Item>)
    requires Publishable(metas) && |items| == |metas| && forall i :: 0 <= i < |metas| ==> items[i].meta == metas[i]
    ensures forall a, b :: 0 <= a < b < |items| ==> items[a].meta.id != items[b].meta.id
  {
  }

  lemma {:induction false} MediaArrives(s: System, metas: seq<Metadata>, k: nat)
    requires Publishable(metas) && k < |metas| && Stage(s, metas, k) && Deliverable(metas[k])
    ensures Apart(s, Run(s, Part(MediaName(metas[k]), metas[k].size)),
                  s.queue.items[k := WithPart(Fresh(metas[k]), false, metas[k].size)])
  {
    hide Run, IndexOf;
    var meta := metas[k];
    NamesFit(meta);
    DistinctItems(s, metas, s.queue.items);
    NameFinds(s.queue.items, k, MediaName(meta));
    PartArrives(s, k, MediaName(meta), meta.size);
  }

  lemma {:induction false} SidecarArrives(s: System, metas: seq<Metadata>, k: nat, item: Item)
    requires Publishable(metas) && k < |metas| && Deliverable(metas[k]) && metas[k].subtitleSize > 0 && Open(s)
    requires |s.queue.items| == |metas| && forall i :: 0 <= i < |metas| ==> s.queue.items[i].meta == metas[i]
    requires item == s.queue.items[k] && !item.subtitleReady
    ensures Apart(s, Run(s, Part(SidecarName(metas[k]), metas[k].subtitleSize)),
                  s.queue.items[k := WithPart(item, true, metas[k].subtitleSize)])
  {
    hide Run, IndexOf;
    var meta := metas[k];
    NamesFit(meta);
    DistinctItems(s, metas, s.queue.items);
    NameFinds(s.queue.items, k, SidecarName(meta));
    PartArrives(s, k, SidecarName(meta), meta.subtitleSize);
  }

  lemma {:induction false} ItemArrives(s: System, metas: seq<Metadata>, k: nat)
    requires Publishable(metas) && k < |metas| && Stage(s, metas, k) && Deliverable(metas[k])
    ensures Stage(Run(s, Delivery(metas[k])), metas, k + 1)
    ensures Run(s, Delivery(metas[k])).worker == s.worker
  {
    hide Run, Next;
    var meta := metas[k];
    var media := Part(MediaName(meta), meta.size);
    MediaArrives(s, metas, k);
    var a := Run(s, media);
    if meta.subtitleSize > 0 {
      SidecarArrives(a, metas, k, a.queue.items[k]);
      RunConcat(s, media, Part(SidecarName(meta), meta.subtitleSize));
    } else {
      assert media + [] == media;
    }
  }

  lemma {:induction false} AllArrive(s: System, metas: seq<Metadata>, k: nat)
    requires Publishable(metas) && k <= |metas| && Stage(s, metas, 0)
    requires forall i :: 0 <= i < |metas| ==> Deliverable(metas[i])
    ensures Stage(Run(s, Deliveries(metas[..k])), metas, k) && Run(s, Deliveries(metas[..k])).worker == s.worker
  {
    hide Next, Delivery, Stage;
    if k > 0 {
      AllArrive(s, metas, k - 1);
      assert metas[..k][..k - 1] == metas[..k - 1];
      ItemArrives(Run(s, Deliveries(metas[..k - 1])), metas, k - 1);
      RunConcat(s, Deliveries(metas[..k - 1]), Delivery(metas[k - 1]));
    } else {
      assert Run(s, []) == s;
    }
  }

  // ---- imports ----

  /** The worker stands before item k; those before it are imported, the others have arrived. */
  predicate Underway(s: System, metas: seq<Metadata>, k: nat) {
    && s.wifi.Idle? && !s.queue.cancelled && s.queue.syncing && !s.pollSawSync && s.worker == AtItem(k)
    && |s.queue.items| == |metas| && s.queue.imported == k && s.queue.failed == 0
    && forall i :: 0 <= i < |metas| ==>
         s.queue.items[i] == if i < k then Arrived(metas[i]).(state := Imported) else Arrived(metas[i])
  }

  lemma {:induction false} SyncStarts(s: System, metas: seq<Metadata>)
    requires metas != [] && Stage(s, metas, |metas|) && (s.worker.NoWorker? || s.worker.WorkerDone?)
    ensures Underway(Run(s, [RequestSync, Poll, StartWorker(true)]), metas, 0)
  {
    RunThree(s, RequestSync, Poll, StartWorker(true));
    hide Run;
    var a := Next(s, RequestSync);
    assert a.queue.syncing;
    var b := Next(a, Poll);
    assert b.pollSawSync;
  }

  lemma {:induction false} ItemImports(s: System, metas: seq<Metadata>, k: nat)
    requires k < |metas| && Underway(s, metas, k)
    ensures Underway(Run(s, [WorkerLocks, ExportReturns(0)]), metas, k + 1)
  {
    RunTwo(s, WorkerLocks, ExportReturns(0));
    hide Run;
    var a := Next(s, WorkerLocks);
    assert a.worker == InExport(k);
  }

  lemma {:induction false} AllImport(s: System, metas: seq<Metadata>, k: nat)
    requires k <= |metas| && Underway(s, metas, 0)
    ensures Underway(Run(s, Imports(k)), metas, k)
  {
    hide Next, Underway;
    if k > 0 {
      AllImport(s, metas, k - 1);
      ItemImports(Run(s, Imports(k - 1)), metas, k - 1);
      RunConcat(s, Imports(k - 1), [WorkerLocks, ExportReturns(0)]);
    } else {
      assert Run(s, []) == s;
    }
  }

  /** Every published file is imported, and the interface is back where it was. */
  predicate Delivered(s: System, metas: seq<Metadata>) {
    && s.wifi.Idle? && s.worker.NoWorker? && !s.pollSawSync && !s.queue.syncing && !s.queue.cancelled
    && |s.queue.items| == |metas| == s.queue.imported && s.queue.failed == 0 && s.queue.importing == -1
    && forall i :: 0 <= i < |metas| ==> s.queue.items[i] == Arrived(metas[i]).(state := Imported)
  }

  lemma {:induction false} WorkerEnds(s: System, metas: seq<Metadata>)
    requires Underway(s, metas, |metas|)
    ensures Delivered(Run(s, [WorkerLocks, Poll]), metas)
  {
    RunTwo(s, WorkerLocks, Poll);
    hide Run;
    var a := Next(s, WorkerLocks);
    assert a.worker == WorkerDone;
  }

  lemma {:induction false} Published(s: System, id: Text, metas: seq<Metadata>)
    requires Invariant(s) && s.wifi.Idle? && PublishAccepted(s.queue) && Publishable(metas)
    ensures Stage(Run(s, [Publish(id, metas)]), metas, 0)
    ensures var w := Run(s, [Publish(id, metas)]).worker; w.NoWorker? || w.WorkerDone?
  {
    RunOne(s, Publish(id, metas));
    hide Run, Sum;
  }

  lemma {:induction false} SumsOfDelivered(items: seq<Item>)
    requires forall i :: 0 <= i < |items| ==> items[i].received == DeclaredBytes(items[i])
    ensures Sum(items, ReceivedBytes) == Sum(items, DeclaredBytes)
  {
    if items != [] { SumsOfDelivered(items[1..]); }
  }

  lemma {:induction false} AllBytesCounted(s: System, metas: seq<Metadata>)
    requires Invariant(s) && Delivered(s, metas)
    ensures s.queue.transferred == s.queue.total
  {
    hide Sum;
    SumsOfDelivered(s.queue.items);
  }

  /**
    Whenever a publication is accepted, its files can all be delivered: publishing, uploading each file and
    its sidecar, one sync and imports that succeed leave every item imported and without an error, none
    failed, every declared byte counted, and the queue free for the next publication.
   */
  lemma {:induction false} CompleteTransferSucceeds(events: seq<Event>, id: Text, metas: seq<Metadata>)
    requires var s := Run(INITIAL, events); s.wifi.Idle? && PublishAccepted(s.queue) && Publishable(metas)
    requires forall i :: 0 <= i < |metas| ==> Deliverable(metas[i])
    ensures var t := Run(INITIAL, events + Transfer(id, metas));
            Delivered(t, metas) && t.queue.transferred == t.queue.total && PublishAccepted(t.queue)
  {
    RunPreservesInvariant(INITIAL, events);
    RunPreservesInvariant(INITIAL, events + Transfer(id, metas));
    var s := Run(INITIAL, events);
    hide Run, Next, Invariant, Deliveries, Imports, Stage, Underway;
    var p, d, w, i, e := [Publish(id, metas)], Deliveries(metas), [RequestSync, Poll, StartWorker(true)], Imports(|metas|), [WorkerLocks, Poll];
    Published(s, id, metas);
    AllArrive(Run(s, p), metas, |metas|);
    assert metas[..|metas|] == metas;
    SyncStarts(Run(Run(s, p), d), metas);
    AllImport(Run(Run(Run(s, p), d), w), metas, |metas|);
    WorkerEnds(Run(Run(Run(Run(s, p), d), w), i), metas);
    RunConcat(s, p, d);
    RunConcat(s, p + d, w);
    RunConcat(s, p + d + w, i);
    RunConcat(s, p + d + w + i, e);
    RunConcat(INITIAL, events, Transfer(id, metas));
    AllBytesCounted(Run(INITIAL, events + Transfer(id, metas)), metas);
  }

  lemma {:induction false} ValidIsDeliverable(m: Metadata)
    requires QueueFormat.Valid(m)
    ensures Deliverable(m)
  {
    var photos, music, mp4 := QueueFormat.PHOTO_EXTENSIONS, QueueFormat.MUSIC_EXTENSIONS, QueueFormat.MP4;
    assert SIDECAR_EXTENSION[1] == 52 && SIDECAR_EXTENSION[2] == 116;
    forall i | 0 <= i < |photos| ensures photos[i] != SIDECAR_EXTENSION {
      assert |photos[i]| > 1 && photos[i][1] != 52;
    }
    forall i | 0 <= i < |music| ensures music[i] != SIDECAR_EXTENSION {
      assert |music[i]| > 2 && music[i][2] != 116;
    }
    assert mp4[2] != 116;
  }

  /** So every body that the parser accepts can be delivered in full. */
  lemma {:induction false} AcceptedBodyCanBeDelivered(events: seq<Event>, body: Text)
    requires QueueFormat.Parse(body).Some?
    requires var s := Run(INITIAL, events); s.wifi.Idle? && PublishAccepted(s.queue)
    ensures var p := QueueFormat.Parse(body).value;
            var t := Run(INITIAL, events + Transfer(p.id, p.items));
            Delivered(t, p.items) && t.queue.transferred == t.queue.total && PublishAccepted(t.queue)
  {
    QueueFormat.AcceptedIsValid(body);
    var p := QueueFormat.Parse(body).value;
    hide Run, Delivered, PublishAccepted, Publishable, Transfer, QueueFormat.Parse, QueueFormat.Valid;
    forall i | 0 <= i < |p.items| ensures Deliverable(p.items[i]) { ValidIsDeliverable(p.items[i]); }
    CompleteTransferSucceeds(events, p.id, p.items);
  }

  // ---- and no others ----

  /** Media are marked ready only for deliverable files. */
  predicate OnlyDeliverable(s: System) {
    && (forall i :: 0 <= i < |s.queue.items| && s.queue.items[i].mediaReady ==> Deliverable(s.queue.items[i].meta))
    && (s.wifi.Uploading? && !s.wifi.sidecar ==>
          s.wifi.index < |s.queue.items| && Deliverable(s.queue.items[s.wifi.index].meta))
  }

  lemma {:induction false} OnlyDeliverableStep(s: System, e: Event)
    requires Invariant(s) && OnlyDeliverable(s)
    ensures OnlyDeliverable(Next(s, e))
  {
    hide Sum;
    if e.BeginUpload? && Next(s, e) != s {
      var i := IndexOf(s.queue.items, e.name);
      assert |e.name[..32]| == 32;
    }
  }

  /**
    No other file ever gets there: in every reachable state, what was received or imported has an identifier
    of 32 bytes and an extension other than that of sidecars.
   */
  lemma {:induction false} OnlyDeliverableArrives(events: seq<Event>)
    ensures var s := Run(INITIAL, events);
            && OnlyDeliverable(s)
            && forall i :: 0 <= i < |s.queue.items| && s.queue.items[i].state in {Received, Importing, Imported} ==>
                 Deliverable(s.queue.items[i].meta)
  {
    RunPreservesInvariant(INITIAL, events);
    var s := Run(INITIAL, events);
    hide Next;
    if events != [] {
      var front := events[..|events| - 1];
      OnlyDeliverableArrives(front);
      RunPreservesInvariant(INITIAL, front);
      OnlyDeliverableStep(Run(INITIAL, front), events[|events| - 1]);
    }
    hide Sum, Run;
    forall i | 0 <= i < |s.queue.items| && s.queue.items[i].state in {Received, Importing, Imported}
      ensures Deliverable(s.queue.items[i].meta)
    {
      assert ItemSound(s.queue.items[i]);
    }
  }
}
