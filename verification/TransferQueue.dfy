/**
  The transfer queue of src/vita/sync_queue.c.

  `Queue` is the value behind the queue mutex. Every locked region is a function from the old
  value to the new one; `SharedQueue` is the imperative form, with the source's loops, proved
  against these functions.
 */
module TransferQueue {
  import opened Bytes

  const QUEUE_MAX: nat := 128
  const MAX_MEDIA: nat := 8 * 1024 * 1024 * 1024
  const MAX_SUBTITLE: nat := 64 * 1024 * 1024

  datatype ItemState = Waiting | Receiving | Received | Importing | Imported | Failed

  /** What a publication says about one file. */
  datatype Metadata = Metadata(
    id: Text, extension: Text, size: nat, subtitleSize: nat, kind: nat,
    name: Text, title: Text, artist: Text, album: Text, albumArtist: Text, genre: Text,
    durationMs: nat, sampleRate: nat, channels: nat, track: nat, folder: Text)

  datatype Item = Item(
    meta: Metadata, received: nat, state: ItemState, error: int,
    mediaReady: bool, subtitleReady: bool)

  /** `items` is the used prefix of the item array, so `|items|` is the count field. */
  datatype Queue = Queue(
    revision: nat, id: Text, items: seq<Item>, imported: int, failed: int, importing: int,
    syncing: bool, cancelled: bool, transferred: nat, total: nat)

  /** What the import loop does with an item. */
  datatype Claim = Stop | Pass | Take

  const EMPTY_QUEUE := Queue(0, [], [], 0, 0, -1, false, false, 0, 0)

  function Fresh(meta: Metadata): Item {
    Item(meta, 0, Waiting, 0, false, false)
  }

  /** Both parts of the item have arrived. */
  predicate Complete(item: Item) {
    item.mediaReady && (item.meta.subtitleSize == 0 || item.subtitleReady)
  }

  function Bump(revision: nat): nat {
    if revision + 1 < U32 then revision + 1 else 0
  }

  /** Unsigned 64-bit addition and subtraction, wrapping. */
  function Add64(a: nat, b: nat): nat {
    if a + b < U64 then a + b else (a + b) % U64
  }

  function Sub64(a: nat, b: nat): nat {
    if b <= a < U64 then a - b else (a - b) % U64
  }

  // ---- the locked regions ----

  const SIDECAR_EXTENSION: Text := [109, 52, 116] // m4t
  const DOT: byte := 46

  predicate NameMatches(item: Item, name: Text) {
    |name| > 32 && item.meta.id == name[..32] && name[32] == DOT
  }

  /** The first item the uploaded name belongs to, or the count. */
  function IndexOf(items: seq<Item>, name: Text): (i: nat)
    ensures i <= |items|
    ensures i < |items| ==> NameMatches(items[i], name)
    ensures forall j :: 0 <= j < i ==> !NameMatches(items[j], name)
  {
    if items == [] then 0
    else if NameMatches(items[0], name) then 0
    else 1 + IndexOf(items[1..], name)
  }

  predicate IsSidecar(name: Text) {
    |name| > 32 && name[33..] == SIDECAR_EXTENSION
  }

  predicate Accepts(item: Item, name: Text, size: nat) {
    && NameMatches(item, name)
    && if IsSidecar(name) then item.meta.subtitleSize == size && !item.subtitleReady
       else name[33..] == item.meta.extension && item.meta.size == size && !item.mediaReady
  }

  predicate FindAccepted(q: Queue, name: Text, size: nat) {
    && !q.cancelled && !q.syncing
    && var i := IndexOf(q.items, name);
       i < |q.items| && Accepts(q.items[i], name, size)
  }

  function AfterFind(q: Queue, name: Text, size: nat): Queue {
    if !FindAccepted(q, name, size) then q
    else
      var i := IndexOf(q.items, name);
      q.(items := q.items[i := q.items[i].(state := Receiving)], revision := Bump(q.revision))
  }

  function AfterProgress(q: Queue, i: nat, received: nat, sidecar: bool): Queue
    requires i < |q.items|
  {
    var item := q.items[i];
    var value := Add64(received, if sidecar && item.mediaReady then item.meta.size else 0);
    q.(items := q.items[i := item.(received := value)],
       transferred := Add64(Sub64(q.transferred, item.received), value),
       revision := Bump(q.revision))
  }

  function AfterReceived(q: Queue, i: nat, sidecar: bool, error: int): Queue
    requires i < |q.items|
  {
    var item := q.items[i].(error := error);
    if error != 0 then
      q.(failed := if item.state.Failed? then q.failed else q.failed + 1,
         items := q.items[i := item.(state := Failed)], revision := Bump(q.revision))
    else
      var ready := if sidecar then item.(subtitleReady := true) else item.(mediaReady := true);
      var settled := ready.(state := if Complete(ready) then Received else Receiving);
      q.(items := q.items[i := settled], revision := Bump(q.revision))
  }

  predicate SyncAccepted(q: Queue) {
    && q.items != [] && !q.cancelled && !q.syncing
    && forall i :: 0 <= i < |q.items| ==> q.items[i].state.Received? || q.items[i].state.Failed?
  }

  function AfterSync(q: Queue): Queue {
    if SyncAccepted(q) then q.(syncing := true, revision := Bump(q.revision)) else q
  }

  function AfterCancel(q: Queue): Queue {
    q.(cancelled := true, revision := Bump(q.revision))
  }

  predicate PublishAccepted(q: Queue) {
    && !q.syncing
    && (q.items == [] || q.cancelled || q.imported + q.failed >= |q.items|)
  }

  function AfterPublish(q: Queue, id: Text, metas: seq<Metadata>, total: nat): Queue {
    if !PublishAccepted(q) then q
    else Queue(Bump(q.revision), id, seq(|metas|, i requires 0 <= i < |metas| => Fresh(metas[i])),
               0, 0, -1, false, false, 0, total)
  }

  function AfterImportBegins(q: Queue, i: nat): Queue
    requires i < |q.items|
  {
    q.(items := q.items[i := q.items[i].(state := Importing)], importing := i,
       revision := Bump(q.revision))
  }

  function AfterImportEnds(q: Queue, i: nat, status: int): Queue
    requires i < |q.items|
  {
    var outcome := if status == 0 then Imported else Failed;
    q.(items := q.items[i := q.items[i].(error := status, state := outcome)],
       imported := if status == 0 then q.imported + 1 else q.imported,
       failed := if status == 0 then q.failed else q.failed + 1,
       revision := Bump(q.revision))
  }

  function AfterImportsStop(q: Queue): Queue {
    q.(syncing := false, importing := -1, revision := Bump(q.revision))
  }

  // ---- sums over the items ----

  function Sum(items: seq<Item>, weight: Item -> nat): nat {
    if items == [] then 0 else weight(items[0]) + Sum(items[1..], weight)
  }

  lemma {:induction false} SumUpdate(items: seq<Item>, weight: Item -> nat, i: nat, item: Item)
    requires i < |items|
    ensures Sum(items[i := item], weight) + weight(items[i]) == Sum(items, weight) + weight(item)
  {
    if i == 0 {
      assert items[0 := item][1..] == items[1..];
    } else {
      assert items[i := item][1..] == items[1..][i - 1 := item];
      SumUpdate(items[1..], weight, i - 1, item);
    }
  }

  lemma {:induction false} SumOrdered(items: seq<Item>, low: Item -> nat, high: Item -> nat)
    requires forall i :: 0 <= i < |items| ==> low(items[i]) <= high(items[i])
    ensures Sum(items, low) <= Sum(items, high)
  {
    if items != [] {
      forall i | 0 <= i < |items[1..]| ensures low(items[1..][i]) <= high(items[1..][i]) {
        assert items[1..][i] == items[i + 1];
      }
      SumOrdered(items[1..], low, high);
    }
  }

  lemma {:induction false} SumBounded(items: seq<Item>, weight: Item -> nat, bound: nat)
    requires forall i :: 0 <= i < |items| ==> weight(items[i]) <= bound
    ensures Sum(items, weight) <= |items| * bound
  {
    if items != [] {
      forall i | 0 <= i < |items[1..]| ensures weight(items[1..][i]) <= bound {
        assert items[1..][i] == items[i + 1];
      }
      SumBounded(items[1..], weight, bound);
      assert |items| * bound == |items[1..]| * bound + bound;
    }
  }

  /** Three weights that add up to one on every item split the count. */
  lemma {:induction false} SumPartition(items: seq<Item>, a: Item -> nat, b: Item -> nat, c: Item -> nat)
    requires forall i :: 0 <= i < |items| ==> a(items[i]) + b(items[i]) + c(items[i]) == 1
    ensures Sum(items, a) + Sum(items, b) + Sum(items, c) == |items|
  {
    if items != [] {
      forall i | 0 <= i < |items[1..]| ensures a(items[1..][i]) + b(items[1..][i]) + c(items[1..][i]) == 1 {
        assert items[1..][i] == items[i + 1];
      }
      SumPartition(items[1..], a, b, c);
    }
  }

  lemma {:induction false} SumZero(items: seq<Item>, weight: Item -> nat)
    ensures Sum(items, weight) == 0 <==> forall i :: 0 <= i < |items| ==> weight(items[i]) == 0
  {
    if items != [] {
      SumZero(items[1..], weight);
      assert forall i :: 0 <= i < |items[1..]| ==> items[1..][i] == items[i + 1];
      if forall i :: 0 <= i < |items[1..]| ==> weight(items[1..][i]) == 0 {
        forall i | 0 < i < |items| ensures weight(items[i]) == 0 {
          assert items[i] == items[1..][i - 1];
        }
      }
    }
  }

  function ReceivedBytes(item: Item): nat { item.received }
  function DeclaredBytes(item: Item): nat { item.meta.size + item.meta.subtitleSize }
  function ImportedWeight(item: Item): nat { if item.state.Imported? then 1 else 0 }
  function FailedWeight(item: Item): nat { if item.state.Failed? then 1 else 0 }
  function PendingWeight(item: Item): nat { if item.state.Imported? || item.state.Failed? then 0 else 1 }

  // ---- the imperative queue ----

  /** An undisturbed run of the import worker from item i, each import returning status(i). */
  function ImportFrom(q: Queue, i: nat, status: nat -> int): Queue
    decreases |q.items| - i
  {
    if i >= |q.items| || q.cancelled then AfterImportsStop(q)
    else if !q.items[i].state.Received? then ImportFrom(q, i + 1, status)
    else ImportFrom(AfterImportEnds(AfterImportBegins(q, i), i, status(i)), i + 1, status)
  }

  /** The worker imports exactly the received items, records each outcome and touches no other item. */
  lemma {:induction false} ImportFromOutcome(q: Queue, i: nat, status: nat -> int)
    requires !q.cancelled
    ensures var q' := ImportFrom(q, i, status);
            && |q'.items| == |q.items| && !q'.syncing && q'.importing == -1
            && forall j :: 0 <= j < |q.items| ==>
                 q'.items[j] == if j < i || !q.items[j].state.Received? then q.items[j]
                                else q.items[j].(error := status(j),
                                                 state := if status(j) == 0 then Imported else Failed)
    decreases |q.items| - i
  {
    if i < |q.items| {
      if q.items[i].state.Received? {
        ImportFromOutcome(AfterImportEnds(AfterImportBegins(q, i), i, status(i)), i + 1, status);
      } else {
        ImportFromOutcome(q, i + 1, status);
      }
    }
  }

  /** The mutex-protected globals of the source, updated in place. */
  class SharedQueue {
    var revision: nat
    var id: Text
    var count: nat
    var imported: int
    var failed: int
    var importing: int
    var syncing: bool
    var cancelled: bool
    var transferred: nat
    var total: nat
    const items: array<Item>

    ghost predicate Valid()
      reads this
    {
      count <= items.Length == QUEUE_MAX
    }

    ghost function View(): Queue
      requires Valid()
      reads this, items
    {
      Queue(revision, id, items[..count], imported, failed, importing, syncing, cancelled, transferred, total)
    }

    constructor (filler: Item)
      ensures Valid() && fresh(items) && View() == EMPTY_QUEUE
    {
      revision, id, count, imported, failed, importing := 0, [], 0, 0, 0, -1;
      syncing, cancelled, transferred, total := false, false, 0, 0;
      items := new Item[QUEUE_MAX](_ => filler);
    }

    method Find(name: Text, size: nat) returns (found: int, sidecar: bool)
      requires Valid()
      modifies this`revision, items
      ensures Valid() && View() == AfterFind(old(View()), name, size)
      ensures found >= 0 <==> FindAccepted(old(View()), name, size)
      ensures found >= 0 ==> found == IndexOf(old(View()).items, name) && sidecar == IsSidecar(name)
    {
      found, sidecar := -1, false;
      if cancelled || syncing { return; }
      ghost var start := items[..count];
      var i := 0;
      while i < count
        invariant 0 <= i <= count
        invariant items[..count] == start
        invariant forall j :: 0 <= j < i ==> !NameMatches(start[j], name)
      {
        var item := items[i];
        if |name| > 32 && item.meta.id == name[..32] && name[32] == DOT {
          assert IndexOf(start, name) == i;
          sidecar := name[33..] == SIDECAR_EXTENSION;
          if (sidecar && item.meta.subtitleSize == size && !item.subtitleReady) ||
             (!sidecar && name[33..] == item.meta.extension && item.meta.size == size && !item.mediaReady) {
            items[i] := item.(state := Receiving);
            revision := Bump(revision);
            found := i;
            assert items[..count] == start[i := item.(state := Receiving)];
          }
          return;
        }
        i := i + 1;
      }
      assert IndexOf(start, name) == |start|;
    }

    method Progress(i: nat, received: nat, sidecar: bool)
      requires Valid() && i < count
      modifies this`revision, this`transferred, items
      ensures Valid() && View() == AfterProgress(old(View()), i, received, sidecar)
    {
      var item := items[i];
      var value := Add64(received, if sidecar && item.mediaReady then item.meta.size else 0);
      transferred := Sub64(transferred, item.received);
      items[i] := item.(received := value);
      transferred := Add64(transferred, value);
      revision := Bump(revision);
      assert items[..count] == old(items[..count])[i := item.(received := value)];
    }

    method Receive(i: nat, sidecar: bool, error: int)
      requires Valid() && i < count
      modifies this`revision, this`failed, items
      ensures Valid() && View() == AfterReceived(old(View()), i, sidecar, error)
    {
      var item := items[i].(error := error);
      if error != 0 {
        if !item.state.Failed? { failed := failed + 1; }
        item := item.(state := Failed);
      } else {
        if sidecar { item := item.(subtitleReady := true); } else { item := item.(mediaReady := true); }
        item := item.(state := if item.mediaReady && (item.meta.subtitleSize == 0 || item.subtitleReady)
                               then Received else Receiving);
      }
      items[i] := item;
      revision := Bump(revision);
      assert items[..count] == old(items[..count])[i := item];
    }

    method Sync() returns (accepted: bool)
      requires Valid()
      modifies this`syncing, this`revision
      ensures Valid() && View() == AfterSync(old(View()))
      ensures accepted == SyncAccepted(old(View()))
    {
      if count == 0 || cancelled || syncing { return false; }
      var i := 0;
      while i < count
        invariant 0 <= i <= count
        invariant forall j :: 0 <= j < i ==> items[j].state.Received? || items[j].state.Failed?
      {
        if !items[i].state.Received? && !items[i].state.Failed? {
          assert View().items[i] == items[i];
          return false;
        }
        i := i + 1;
      }
      syncing := true;
      revision := Bump(revision);
      return true;
    }

    method Cancel()
      requires Valid()
      modifies this`cancelled, this`revision
      ensures Valid() && View() == AfterCancel(old(View()))
      ensures cancelled && forall name, size :: !FindAccepted(View(), name, size)
      ensures View().(cancelled := old(cancelled), revision := old(revision)) == old(View())
    {
      cancelled := true;
      revision := Bump(revision);
    }

    /** The committing half of a publication; `pending` is the parsed list. */
    method Publish(queueId: Text, pending: seq<Metadata>, pendingTotal: nat) returns (accepted: bool)
      requires Valid() && 1 <= |pending| <= QUEUE_MAX
      modifies this, items
      ensures Valid() && View() == AfterPublish(old(View()), queueId, pending, pendingTotal)
      ensures accepted == PublishAccepted(old(View()))
    {
      if syncing || (count > 0 && !cancelled && imported + failed < count) { return false; }
      revision, id, count := Bump(revision), queueId, |pending|;
      imported, failed, importing, syncing, cancelled := 0, 0, -1, false, false;
      transferred, total := 0, pendingTotal;
      for i := 0 to |pending|
        modifies items
        invariant forall j :: 0 <= j < i ==> items[j] == Fresh(pending[j])
      {
        items[i] := Fresh(pending[i]);
      }
      return true;
    }

    /** The import loop's first locked region at item i: stop, pass the item over, or take it. */
    method LockItem(i: nat) returns (claim: Claim)
      requires Valid()
      modifies this`revision, this`syncing, this`importing, items
      ensures Valid()
      ensures var q := old(View());
              && (claim.Stop? <==> i >= |q.items| || q.cancelled)
              && (claim.Take? <==> i < |q.items| && !q.cancelled && q.items[i].state.Received?)
              && View() == if claim.Stop? then AfterImportsStop(q) else if claim.Take? then AfterImportBegins(q, i) else q
    {
      if i >= count || cancelled {
        syncing, importing := false, -1;
        revision := Bump(revision);
        return Stop;
      }
      if !items[i].state.Received? { return Pass; }
      ghost var q := View();
      items[i] := items[i].(state := Importing);
      importing := i;
      revision := Bump(revision);
      assert View() == AfterImportBegins(q, i);
      return Take;
    }

    /** Its second locked region, with the result of the import. */
    method Conclude(i: nat, status: int)
      requires Valid() && i < count
      modifies this`revision, this`imported, this`failed, items
      ensures Valid() && View() == AfterImportEnds(old(View()), i, status)
    {
      ghost var q := View();
      items[i] := items[i].(error := status, state := if status == 0 then Imported else Failed);
      if status == 0 { imported := imported + 1; } else { failed := failed + 1; }
      revision := Bump(revision);
      assert View() == AfterImportEnds(q, i, status);
    }

    /** The import loop when no other actor interferes; `status` is what each import returns. */
    method RunImports(status: nat -> int)
      requires Valid()
      modifies this`revision, this`syncing, this`importing, this`imported, this`failed, items
      ensures Valid() && View() == ImportFrom(old(View()), 0, status)
    {
      var i := 0;
      var running := true;
      while running
        invariant Valid() && 0 <= i <= count
        invariant (if running then ImportFrom(View(), i, status) else View()) == ImportFrom(old(View()), 0, status)
        decreases running, count - i
      {
        hide AfterImportsStop, AfterImportBegins, AfterImportEnds;
        ghost var q := View();
        ImportFromStep(q, i, status);
        var claim := LockItem(i);
        SameCount(q, i, status(i));
        if claim.Stop? {
          running := false;
        } else {
          if claim.Take? { Conclude(i, status(i)); }
          i := i + 1;
        }
      }
    }
  }

  lemma {:induction false} ImportFromStep(q: Queue, i: nat, status: nat -> int)
    ensures ImportFrom(q, i, status) ==
              if i >= |q.items| || q.cancelled then AfterImportsStop(q)
              else if !q.items[i].state.Received? then ImportFrom(q, i + 1, status)
              else ImportFrom(AfterImportEnds(AfterImportBegins(q, i), i, status(i)), i + 1, status)
  {
    hide AfterImportsStop, AfterImportEnds, AfterImportBegins;
  }

  lemma {:induction false} SameCount(q: Queue, i: nat, status: int)
    ensures i < |q.items| ==>
              |AfterImportBegins(q, i).items| == |q.items|
              && |AfterImportEnds(AfterImportBegins(q, i), i, status).items| == |q.items|
  {
  }
}
