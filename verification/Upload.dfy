/**
  Conservation of uploaded bytes, for every chunking and every partial write: receiving into the inbox
  (`receive_file` in src/vita/wifi_service.c) and relaying from USB (src/usb/mtpif_adapter.c and
  src/usb/catalog_client.c). Sockets, files and the device return arbitrary results in their ranges.
 */
module Upload {
  import opened Bytes
  import opened TransferQueue
  import opened TransferRuns

  const CHUNK: nat := 16384
  const RELAY_CHUNK: nat := 65536
  const SPARE: nat := 0x80_0000

  // ---- the Wi-Fi thread's part of a run ----

  /** The interface and the import worker. */
  predicate FromOthers(e: Event) {
    e.Cancel? || e.Poll? || e.StartWorker? || e.WorkerLocks? || e.ExportReturns?
  }

  /** The upload event takes effect: what the runs assume of `receive_file` holds. */
  predicate Enabled(s: System, e: Event) {
    match e
    case BeginUpload(name, size) => s.wifi.Idle? && 0 < size <= MAX_MEDIA && FindAccepted(s.queue, name, size)
    case Progress(count) =>
      s.wifi.Uploading? && s.wifi.index < |s.queue.items| && 0 < count <= s.wifi.expected - s.wifi.received
    case EndUpload(error) =>
      s.wifi.Uploading? && s.wifi.index < |s.queue.items| && (error == 0 ==> s.wifi.received == s.wifi.expected)
    case _ => FromOthers(e)
  }

  /** A run of an upload and the other actors in which every upload event is enabled. */
  ghost predicate AllEnabled(s: System, events: seq<Event>) {
    events == [] ||
    (AllEnabled(s, events[..|events| - 1]) && Enabled(Run(s, events[..|events| - 1]), events[|events| - 1]))
  }

  lemma {:induction false} EnabledMore(s: System, events: seq<Event>, e: Event)
    requires AllEnabled(s, events) && Enabled(Run(s, events), e)
    ensures AllEnabled(s, events + [e]) && Run(s, events + [e]) == Next(Run(s, events), e)
  {
    hide Next, Enabled;
    assert (events + [e])[..|events|] == events;
  }

  lemma {:induction false} NothingEnabled(s: System)
    ensures AllEnabled(s, []) && Run(s, []) == s && Reports([]) == [] && Outcomes([]) == []
  {
    hide Next, Enabled;
  }

  /** The other actors leave the upload in progress, and the list of files, alone. */
  lemma {:induction false} OthersKeepUpload(s: System, e: Event)
    requires FromOthers(e)
    ensures Next(s, e).wifi == s.wifi && |Next(s, e).queue.items| == |s.queue.items|
  {
  }

  /** The values passed to vcm_queue_progress. */
  ghost function Reports(events: seq<Event>): seq<nat> {
    if events == [] then []
    else
      var n := |events| - 1;
      var before := Reports(events[..n]);
      match events[n]
      case Progress(count) => before + [Last(before) + count]
      case _ => before
  }

  /** The codes passed to vcm_queue_received. */
  ghost function Outcomes(events: seq<Event>): seq<int> {
    if events == [] then []
    else
      var n := |events| - 1;
      Outcomes(events[..n]) + if events[n].EndUpload? then [events[n].error] else []
  }

  lemma {:induction false} MoreEvents(events: seq<Event>, e: Event)
    ensures Reports(events + [e]) == Reports(events) + if e.Progress? then [Last(Reports(events)) + e.count] else []
    ensures Outcomes(events + [e]) == Outcomes(events) + if e.EndUpload? then [e.error] else []
  {
    assert (events + [e])[..|events|] == events;
  }

  // ---- progress reports ----

  /** Strictly increasing and within 1..expected. */
  ghost predicate Rising(reports: seq<nat>, expected: nat) {
    && (forall i :: 0 <= i < |reports| ==> 0 < reports[i] <= expected)
    && forall i, j :: 0 <= i < j < |reports| ==> reports[i] < reports[j]
  }

  ghost function Last(reports: seq<nat>): nat {
    if reports == [] then 0 else reports[|reports| - 1]
  }

  lemma {:induction false} RisingGrows(reports: seq<nat>, expected: nat, next: nat)
    requires Rising(reports, expected) && Last(reports) < next <= expected
    ensures Rising(reports + [next], expected) && Last(reports + [next]) == next
  {
    var all := reports + [next];
    forall i, j | 0 <= i < j < |all| ensures all[i] < all[j] {
      if j == |reports| && i < |reports| - 1 { assert reports[i] < reports[|reports| - 1]; }
    }
  }

  /** What the queue declares for an uploaded name. */
  function Declared(q: Queue, name: Text): nat
    requires IndexOf(q.items, name) < |q.items|
  {
    var meta := q.items[IndexOf(q.items, name)].meta;
    if IsSidecar(name) then meta.subtitleSize else meta.size
  }

  // ---- the inbox ----

  /** Which file operations succeed: creating the partial file, flushing, closing and renaming it, and the last sync. */
  datatype Effects = Effects(create: bool, flush: bool, close: bool, rename: bool, sync: bool)

  class Inbox {
    var partial: Option<Text>
    var final: Option<Text>
    /** The queue with all its actors. */
    var system: System
    /** The body bytes taken from the connection, in order. */
    ghost var stream: Text
    /** What happened to the system since the request began. */
    ghost var events: seq<Event>
    /** The connection or a write failed, or the upload was stopped. */
    ghost var trouble: bool

    constructor (partial: Option<Text>, final: Option<Text>, system: System)
      ensures this.partial == partial && this.final == final && this.system == system
      ensures stream == [] && events == [] && !trouble
    {
      this.partial, this.final, this.system, stream, events, trouble := partial, final, system, [], [], false;
    }

    /** The system has come from `start` by enabled events. */
    ghost predicate Tracks(start: System)
      reads this`system, this`events
    {
      system == Run(start, events) && AllEnabled(start, events)
    }

    method Do(e: Event, ghost start: System)
      requires Tracks(start) && Enabled(system, e)
      modifies this`system, this`events
      ensures Tracks(start) && system == Next(old(system), e) && events == old(events) + [e]
      ensures Reports(events) == old(Reports(events)) + if e.Progress? then [old(Last(Reports(events))) + e.count] else []
      ensures Outcomes(events) == old(Outcomes(events)) + if e.EndUpload? then [e.error] else []
    {
      hide Next, Enabled;
      EnabledMore(start, events, e);
      MoreEvents(events, e);
      system := Next(system, e);
      events := events + [e];
    }

    /** Any number of steps of the interface and the worker. */
    method Others(ghost start: System)
      requires Tracks(start)
      modifies this`system, this`events
      ensures Tracks(start) && system.wifi == old(system).wifi && |system.queue.items| == |old(system).queue.items|
      ensures Reports(events) == old(Reports(events)) && Outcomes(events) == old(Outcomes(events))
    {
      hide Tracks, Next, Reports, Outcomes;
      var steps: int := *;
      while steps > 0
        invariant Tracks(start) && system.wifi == old(system).wifi && |system.queue.items| == |old(system).queue.items|
        invariant Reports(events) == old(Reports(events)) && Outcomes(events) == old(Outcomes(events))
      {
        var which: int, flag: bool, status: int := *, *, *;
        var e := if which == 0 then Event.Cancel else if which == 1 then Poll else if which == 2 then StartWorker(flag)
                 else if which == 3 then WorkerLocks else ExportReturns(status);
        OthersKeepUpload(system, e);
        Do(e, start);
        steps := steps - 1;
      }
    }

    /** Up to `wanted` bytes from the connection; none if it fails. */
    method Receive(wanted: nat) returns (data: Text)
      modifies this`stream, this`trouble
      ensures |data| <= wanted && stream == old(stream) + data && trouble == (old(trouble) || data == [])
    {
      data := *;
      if |data| > wanted { data := []; }
      stream, trouble := stream + data, trouble || data == [];
    }

    /** The service stops, or the queue was cancelled. */
    method Stopped() returns (stopped: bool)
      modifies this`trouble
      ensures trouble == (old(trouble) || stopped) && (system.queue.cancelled ==> stopped)
    {
      var stopping: bool := *;
      stopped := stopping || system.queue.cancelled;
      trouble := trouble || stopped;
    }

    /** A write may take only part of the data; 0 is a failure. */
    method Write(data: Text) returns (count: nat)
      requires partial.Some?
      modifies this`partial, this`trouble
      ensures count <= |data| && partial == Some(old(partial).value + data[..count])
      ensures trouble == (old(trouble) || count == 0)
    {
      var result: int := *;
      count := if 0 < result <= |data| then result else 0;
      partial := Some(partial.value + data[..count]);
      trouble := trouble || count == 0;
    }

    /** Writes on until all is written or a write fails. */
    method WriteAll(data: Text) returns (ok: bool)
      requires partial.Some?
      modifies this`partial, this`trouble
      ensures partial.Some? && (ok ==> partial == Some(old(partial).value + data))
      ensures trouble == (old(trouble) || !ok)
    {
      ghost var before := partial.value;
      var written := 0;
      assert before + data[..0] == before;
      while written < |data|
        invariant 0 <= written <= |data| && partial == Some(before + data[..written]) && trouble == old(trouble)
      {
        var count := Write(data[written..]);
        if count == 0 { return false; }
        assert before + data[..written] + data[written..][..count] == before + data[..written + count];
        written := written + count;
      }
      assert data[..written] == data;
      ok := true;
    }

    /** The upload of `expected` bytes stands at `received`. */
    ghost predicate At(start: System, received: nat, expected: nat)
      reads this`system, this`events
    {
      && Tracks(start) && received <= expected
      && system.wifi.Uploading? && system.wifi.expected == expected && system.wifi.received == received
      && system.wifi.index < |system.queue.items|
      && Rising(Reports(events), expected) && Last(Reports(events)) == received && Outcomes(events) == []
    }

    /** Reports the bytes of one chunk. */
    method Report(count: nat, ghost start: System, ghost received: nat, ghost expected: nat)
      requires At(start, received, expected) && 0 < count <= expected - received
      modifies this`system, this`events
      ensures At(start, received + count, expected)
    {
      hide Tracks, Rising, Reports, Outcomes;
      RisingGrows(Reports(events), expected, received + count);
      Do(Progress(count), start);
    }

    method Wait(ghost start: System, ghost received: nat, ghost expected: nat)
      requires At(start, received, expected)
      modifies this`system, this`events
      ensures At(start, received, expected)
    {
      hide Tracks, Rising, Reports, Outcomes;
      Others(start);
    }

    /** The body: what came with the headers first, then the connection. Stopping or cancelling ends it. */
    method ReceiveBody(expected: nat, first: Text, ghost start: System) returns (received: nat, failure: bool)
      requires partial == Some([]) && stream == [] && |first| <= expected && At(start, 0, expected) && !trouble
      modifies this`partial, this`stream, this`system, this`events, this`trouble
      ensures partial.Some? && At(start, received, expected)
      ensures !failure ==> partial == Some(stream) && received == |stream|
      ensures failure || received != expected <==> trouble
    {
      hide At;
      received, failure := 0, false;
      var going := true;
      while received < expected && !failure && going
        invariant received <= expected && partial.Some? && At(start, received, expected)
        invariant !failure ==> partial == Some(stream) && received == |stream|
        invariant trouble <==> failure || !going
        invariant !going ==> received < expected
        decreases failure == false, going, expected - received
      {
        Wait(start, received, expected);
        var stopped := Stopped();
        going := !stopped;
        if going {
          var data;
          if received == 0 && |first| > 0 {
            data := first;
            stream := stream + first;
          } else {
            data := Receive(if expected - received < CHUNK then expected - received else CHUNK);
          }
          if data == [] {
            failure := true;
          } else {
            var ok := WriteAll(data);
            failure := !ok;
            Report(|data|, start, received, expected);
            received := received + |data|;
          }
        }
      }
    }

    /** Ends the upload with the code the queue hears. */
    method End(code: int, ghost start: System, ghost received: nat, ghost expected: nat)
      requires At(start, received, expected) && (code == 0 ==> received == expected)
      modifies this`system, this`events
      ensures Tracks(start) && system.wifi.Idle?
      ensures Rising(Reports(events), expected) && Last(Reports(events)) == received && Outcomes(events) == [code]
    {
      Wait(start, received, expected);
      hide Tracks, Rising, Reports, Outcomes;
      Do(EndUpload(code), start);
    }

    method Begin(name: Text, expected: nat, ghost start: System)
      requires events == [] && system == start && Enabled(system, BeginUpload(name, expected))
      modifies this`system, this`events
      ensures At(start, 0, expected)
    {
      NothingEnabled(start);
      hide Rising, Reports, Outcomes;
      NothingRises(expected);
      assert Tracks(start);
      hide Tracks;
      Do(BeginUpload(name, expected), start);
    }

    /**
      One upload. The file gets its final name only if exactly as many bytes as the queue declares for
      it were written in the order of the stream. The existence checks may fail and then read as absence.
      While the interface and the worker do what they like, every step of the upload is one that the
      runs of the queue allow.
     */
    method ReceiveFile(name: Text, expected: nat, first: Text, free: int, finalCheck: bool, partialCheck: bool, does: Effects)
      returns (status: nat)
      requires stream == [] && events == [] && system.wifi.Idle? && !trouble
      modifies this
      ensures Tracks(old(system)) && system.wifi.Idle? && Rising(Reports(events), expected)
      ensures var accepted := FindAccepted(old(system).queue, name, expected);
              && (status == 413 <==> expected == 0 || expected > MAX_MEDIA || |first| > expected)
              && (status != 413 && !accepted ==> status == 409)
              && (status != 413 && accepted && free < expected + SPARE ==> status == 507 && Outcomes(events) == [-1006])
              && (status != 413 && accepted && free >= expected + SPARE ==>
                    if (old(final).Some? && finalCheck) || (old(partial).Some? && partialCheck)
                    then status == 409 && Outcomes(events) == [-1002] else status == 201 || status == 500)
              && |Outcomes(events)| == if accepted && status != 413 then 1 else 0
      ensures var accepted := FindAccepted(old(system).queue, name, expected);
              status != 413 && accepted && free >= expected + SPARE && old(final).None? && old(partial).None? ==>
                (status == 201 <==> does.create && !trouble && does.flush && does.close && does.rename)
      ensures status == 201 ==> FindAccepted(old(system).queue, name, expected)
      ensures status == 201 ==>
                final == Some(stream) && |stream| == Declared(old(system).queue, name) == expected == Last(Reports(events))
      ensures status == 201 ==> old(final).None? && old(partial).None? && partial.None?
      ensures status == 201 ==> Outcomes(events) == [if does.sync then 0 else -1003]
      ensures status != 201 ==> final == old(final) && partial == old(partial) && 0 !in Outcomes(events)
    {
      ghost var start := system;
      NothingEnabled(start);
      NothingRises(expected);
      hide At, Tracks, Rising, Reports, Outcomes, FindAccepted, Last;
      TracksNothing(start);
      if expected == 0 || expected > MAX_MEDIA || |first| > expected { return 413; }
      if !FindAccepted(system.queue, name, expected) { return 409; }
      DeclaredIs(system.queue, name, expected);
      Begin(name, expected, start);
      if free < 0 || free < expected + SPARE {
        End(-1006, start, 0, expected);
        return 507;
      }
      if (final.Some? && finalCheck) || (partial.Some? && partialCheck) {
        End(-1002, start, 0, expected);
        return 409;
      }
      // The exclusive open refuses a partial file that its check missed.
      if !does.create || partial.Some? {
        End(-1, start, 0, expected);
        return 500;
      }
      partial := Some([]);
      var received, failure := ReceiveBody(expected, first, start);
      if received != expected { failure := true; }
      if !does.flush || !does.close { failure := true; }
      // The rename refuses a final file that its check missed.
      if !failure && (!does.rename || final.Some?) { failure := true; }
      if failure {
        partial := None;
        End(-1007, start, received, expected);
        return 500;
      }
      final, partial := partial, None;
      End(if does.sync then 0 else -1003, start, received, expected);
      status := 201;
    }

    lemma {:induction false} TracksNothing(start: System)
      requires system == start && events == [] && Run(start, []) == start && AllEnabled(start, [])
      ensures Tracks(start)
    {
    }
  }

  lemma {:induction false} NothingRises(expected: nat)
    ensures Rising([], expected) && Last([]) == 0
  {
  }

  /** An accepted upload has the size the queue declares. */
  lemma {:induction false} DeclaredIs(q: Queue, name: Text, size: nat)
    requires FindAccepted(q, name, size)
    ensures IndexOf(q.items, name) < |q.items| && Declared(q, name) == size
  {
  }

  // ---- the relay ----

  /** Which upload is declared: the queue body, or a file of an item. */
  datatype Target = QueueBody | File(index: nat)

  predicate Allowed(target: Target, size: nat) {
    && size > 0
    && match target
       case QueueBody => size <= 512 * 1024
       case File(index) => index < 128 && size <= MAX_MEDIA
  }

  /**
    What the other sides do: whether the local connection accepts the request, the chunks the USB host
    delivers and the counts its sends take, and whether the finished upload is confirmed. Missing, empty or
    oversized entries are failures.
   */
  datatype Link = Link(begins: bool, chunks: seq<Text>, sends: seq<nat>, confirms: bool)

  /** One exact send: how much was sent, whether all of it, and the sends still to come. */
  datatype Sending = Sending(count: nat, ok: bool, rest: seq<nat>)

  function Send(data: Text, sends: seq<nat>): (r: Sending)
    ensures r.count <= |data| && (r.ok <==> r.count == |data|)
    decreases |data|
  {
    if data == [] then Sending(0, true, sends)
    else if sends == [] then Sending(0, false, [])
    else if sends[0] == 0 || sends[0] > |data| then Sending(0, false, sends[1..])
    else
      var r := Send(data[sends[0]..], sends[1..]);
      Sending(sends[0] + r.count, r.ok, r.rest)
  }

  datatype Relaying = Relaying(ok: bool, forwarded: Text, delivered: Text)

  predicate Usable(chunk: Text, total: nat) { 0 < |chunk| <= total && |chunk| <= RELAY_CHUNK }

  /** The receive loop with `total` bytes to go. */
  function Relayed(total: nat, chunks: seq<Text>, sends: seq<nat>): Relaying
    decreases total
  {
    if total == 0 then Relaying(true, [], [])
    else if chunks == [] || !Usable(chunks[0], total) then Relaying(false, [], [])
    else
      var c := chunks[0];
      var s := Send(c, sends);
      if !s.ok then Relaying(false, c[..s.count], c)
      else
        var r := Relayed(total - |c|, chunks[1..], s.rest);
        Relaying(r.ok, c + r.forwarded, c + r.delivered)
  }

  /** One upload command: what the host is told, and what happened. */
  datatype Outcome = Outcome(ok: bool, began: bool, received: bool, confirmed: bool, forwarded: Text, delivered: Text)

  function Uploaded(target: Target, total: nat, link: Link): Outcome {
    if !Allowed(target, total) || !link.begins then Outcome(false, false, false, false, [], [])
    else
      var r := Relayed(total, link.chunks, link.sends);
      var confirmed := r.ok && link.confirms;
      // The status of the begin stands unless the upload is finished.
      Outcome(if r.ok then confirmed else true, true, r.ok, confirmed, r.forwarded, r.delivered)
  }

  /** What is forwarded is a prefix of what was delivered, and all of the declared bytes exactly on success. */
  lemma {:induction false} RelayConserves(total: nat, chunks: seq<Text>, sends: seq<nat>)
    ensures var r := Relayed(total, chunks, sends);
            && r.forwarded <= r.delivered && |r.delivered| <= total
            && (r.ok <==> |r.forwarded| == total)
            && (r.ok ==> r.forwarded == r.delivered)
    decreases total
  {
    hide Send;
    if total > 0 && chunks != [] && Usable(chunks[0], total) {
      RelayConserves(total - |chunks[0]|, chunks[1..], Send(chunks[0], sends).rest);
    }
  }

  /** Every send takes all it is given. */
  function FullSends(chunks: seq<Text>): seq<nat> {
    seq(|chunks|, i requires 0 <= i < |chunks| => |chunks[i]|)
  }

  function Joined(chunks: seq<Text>): Text {
    if chunks == [] then [] else chunks[0] + Joined(chunks[1..])
  }

  lemma {:induction false} WholeSend(data: Text, sends: seq<nat>)
    requires data != [] && sends != [] && sends[0] == |data|
    ensures Send(data, sends) == Sending(|data|, true, sends[1..])
  {
    assert data[|data|..] == [];
  }

  /** However the host cuts them, the declared bytes are relayed to the end if nothing fails. */
  lemma {:induction false} CompleteRelaySucceeds(chunks: seq<Text>)
    requires forall i :: 0 <= i < |chunks| ==> 0 < |chunks[i]| <= RELAY_CHUNK
    ensures Relayed(|Joined(chunks)|, chunks, FullSends(chunks)) == Relaying(true, Joined(chunks), Joined(chunks))
  {
    hide Send;
    if chunks != [] {
      WholeSend(chunks[0], FullSends(chunks));
      assert FullSends(chunks)[1..] == FullSends(chunks[1..]);
      CompleteRelaySucceeds(chunks[1..]);
    }
  }

  /** So a confirmed upload over a working link is answered OK with all its bytes forwarded. */
  lemma {:induction false} CompleteUploadSucceeds(target: Target, chunks: seq<Text>)
    requires forall i :: 0 <= i < |chunks| ==> 0 < |chunks[i]| <= RELAY_CHUNK
    requires Allowed(target, |Joined(chunks)|)
    ensures Uploaded(target, |Joined(chunks)|, Link(true, chunks, FullSends(chunks), true))
         == Outcome(true, true, true, true, Joined(chunks), Joined(chunks))
  {
    hide Relayed, Joined, FullSends;
    CompleteRelaySucceeds(chunks);
  }

  /** The host is told OK if and only if the upload began and either the receive failed or it was confirmed. */
  lemma {:induction false} OkExactlyWhen(target: Target, total: nat, link: Link)
    ensures var u := Uploaded(target, total, link);
            && (u.began <==> Allowed(target, total) && link.begins)
            && (u.ok <==> u.began && (!u.received || u.confirmed))
  {
  }

  /** Told OK, the declared bytes were forwarded in order and confirmed if and only if the receive succeeded. */
  lemma {:induction false} OkMeansForwardedExactlyWhenReceived(target: Target, total: nat, link: Link)
    requires Uploaded(target, total, link).ok
    ensures var u := Uploaded(target, total, link);
            u.received <==> u.forwarded == u.delivered && |u.forwarded| == total && u.confirmed
    ensures var u := Uploaded(target, total, link);
            !u.received ==> |u.forwarded| < total && !u.confirmed && u.forwarded <= u.delivered
  {
    RelayConserves(total, link.chunks, link.sends);
    hide Relayed;
  }

  /** An upload whose host delivers nothing is aborted, and yet answered OK. */
  lemma {:induction false} AbortedUploadIsAnsweredOk(target: Target, total: nat, confirms: bool)
    requires Allowed(target, total)
    ensures var u := Uploaded(target, total, Link(true, [], [], confirms));
            u.ok && !u.received && !u.confirmed && u.forwarded == [] && u.delivered == []
  {
  }

  /** `sent` bytes are sent, and `r` is what happens to the rest. */
  predicate SendsFrom(all: Sending, sent: nat, r: Sending) { all == Sending(sent + r.count, r.ok, r.rest) }

  lemma {:induction false} SendStep(all: Sending, data: Text, sent: nat, sends: seq<nat>)
    requires sent < |data| && SendsFrom(all, sent, Send(data[sent..], sends))
    ensures if sends == [] then all == Sending(sent, false, [])
            else if sends[0] == 0 || sends[0] > |data| - sent then all == Sending(sent, false, sends[1..])
            else SendsFrom(all, sent + sends[0], Send(data[sent + sends[0]..], sends[1..]))
  {
    if sends != [] && sends[0] <= |data| - sent {
      assert data[sent..][sends[0]..] == data[sent + sends[0]..];
    }
  }

  lemma {:induction false} SendEnds(all: Sending, data: Text, sent: nat, sends: seq<nat>)
    requires sent == |data| && SendsFrom(all, sent, Send(data[sent..], sends))
    ensures all == Sending(sent, true, sends)
  {
    assert data[sent..] == [];
  }

  /** `done` was relayed, and `r` is what happens to the rest. */
  ghost predicate Continues(all: Relaying, done: Text, r: Relaying) {
    all == Relaying(r.ok, done + r.forwarded, done + r.delivered)
  }

  lemma {:induction false} Regroup(a: Text, b: Text, c: Text)
    ensures a + b + c == a + (b + c)
  {
  }

  lemma {:induction false} RelayStarts(all: Relaying)
    ensures Continues(all, [], all)
  {
    assert [] + all.forwarded == all.forwarded && [] + all.delivered == all.delivered;
  }

  lemma {:induction false} RelayEnds(all: Relaying, done: Text, chunks: seq<Text>, sends: seq<nat>)
    requires Continues(all, done, Relayed(0, chunks, sends))
    ensures all == Relaying(true, done, done)
  {
    assert done + [] == done;
  }

  /** The next chunk is unusable, or fails to be sent, or joins what was relayed. */
  lemma {:induction false} RelayStep(all: Relaying, done: Text, total: nat, chunks: seq<Text>, sends: seq<nat>)
    requires total > 0 && Continues(all, done, Relayed(total, chunks, sends))
    ensures chunks == [] || !Usable(chunks[0], total) ==> all == Relaying(false, done, done)
    ensures chunks != [] && Usable(chunks[0], total) ==>
              var c, s := chunks[0], Send(chunks[0], sends);
              if s.ok then Continues(all, done + c, Relayed(total - |c|, chunks[1..], s.rest))
              else all == Relaying(false, done + c[..s.count], done + c)
  {
    hide Send;
    assert done + [] == done;
    if chunks != [] && Usable(chunks[0], total) {
      var c, s := chunks[0], Send(chunks[0], sends);
      if s.ok {
        var r := Relayed(total - |c|, chunks[1..], s.rest);
        assert done + (c + r.forwarded) == done + c + r.forwarded && done + (c + r.delivered) == done + c + r.delivered;
      }
    }
  }

  /** An upload over the local connection, with what arrived there. */
  class Relay {
    const begins: bool
    const confirms: bool
    var chunks: seq<Text>
    var sends: seq<nat>
    var connected: bool
    var expected: nat
    var written: nat
    ghost var forwarded: Text
    /** The bytes the USB host delivered, in order. */
    ghost var delivered: Text
    ghost var confirmed: bool

    constructor (link: Link)
      ensures !connected && forwarded == [] && delivered == [] && !confirmed
      ensures begins == link.begins && chunks == link.chunks && sends == link.sends && confirms == link.confirms
    {
      begins, confirms, chunks, sends := link.begins, link.confirms, link.chunks, link.sends;
      connected, expected, written, forwarded, delivered, confirmed := false, 0, 0, [], [], false;
    }

    method Begin(target: Target, size: nat) returns (ok: bool)
      modifies this`connected, this`expected, this`written
      ensures ok == connected == (Allowed(target, size) && begins)
      ensures ok ==> expected == size && written == 0
    {
      connected := false;
      if !Allowed(target, size) { return false; }
      expected, written := size, 0;
      ok := begins;
      connected := ok;
    }

    /** Sends on until all is sent; a failure may leave part of the data sent. */
    method SendExact(data: Text) returns (ok: bool)
      modifies this`forwarded, this`sends
      ensures var s := Send(data, old(sends));
              ok == s.ok && sends == s.rest && forwarded == old(forwarded) + data[..s.count]
    {
      hide Send;
      ghost var before, all := forwarded, Send(data, sends);
      var sent := 0;
      assert data[0..] == data && before + data[..0] == before;
      while sent < |data|
        invariant 0 <= sent <= |data| && forwarded == before + data[..sent]
        invariant SendsFrom(all, sent, Send(data[sent..], sends))
      {
        SendStep(all, data, sent, sends);
        if sends == [] { return false; }
        var count := sends[0];
        sends := sends[1..];
        if count == 0 || count > |data| - sent { return false; }
        assert before + data[..sent] + data[sent..sent + count] == before + data[..sent + count];
        forwarded := forwarded + data[sent..sent + count];
        sent := sent + count;
      }
      SendEnds(all, data, sent, sends);
      assert data[..sent] == data;
      ok := true;
    }

    /** Never more than declared. After a failed send the upload can only be aborted. */
    method Write(data: Text) returns (ok: bool)
      requires written <= expected
      modifies this`forwarded, this`sends, this`written
      ensures ok <==> connected && |data| <= expected - old(written) && Send(data, old(sends)).ok
      ensures ok ==> forwarded == old(forwarded) + data && written == old(written) + |data| <= expected
      ensures connected && |data| <= expected - old(written) ==>
                var s := Send(data, old(sends)); sends == s.rest && forwarded == old(forwarded) + data[..s.count]
    {
      if !connected || written > expected || |data| > expected - written { return false; }
      ok := SendExact(data);
      if ok { written := written + |data|; }
    }

    /** Confirms only a complete upload. */
    method Finish() returns (ok: bool)
      modifies this`connected, this`expected, this`written, this`confirmed
      ensures ok == (old(connected) && old(written) == old(expected) && confirms)
      ensures confirmed == (old(confirmed) || ok)
      ensures old(written) == old(expected) ==> !connected
    {
      if !connected || written != expected { return false; }
      ok := confirms;
      confirmed := confirmed || ok;
      connected, expected, written := false, 0, 0;
    }

    method Abort()
      modifies this`connected, this`expected, this`written
      ensures !connected
    {
      connected, expected, written := false, 0, 0;
    }

    /** The host's next chunk, or none. */
    method Deliver(wanted: nat) returns (data: Text)
      modifies this`delivered, this`chunks
      ensures var usable := old(chunks) != [] && 0 < |old(chunks)[0]| <= wanted;
              && data == (if usable then old(chunks)[0] else [])
              && delivered == old(delivered) + data && (usable ==> chunks == old(chunks)[1..])
    {
      if chunks == [] { return []; }
      data := chunks[0];
      chunks := chunks[1..];
      if |data| > wanted { data := []; }
      delivered := delivered + data;
    }

    method ReceiveData(total: nat) returns (ok: bool)
      requires connected && written == 0 && expected == total
      modifies this`chunks, this`sends, this`written, this`forwarded, this`delivered
      ensures var r := Relayed(total, old(chunks), old(sends));
              && ok == r.ok && forwarded == old(forwarded) + r.forwarded && delivered == old(delivered) + r.delivered
      ensures ok ==> written == expected
    {
      hide Send, Relayed, Continues;
      ghost var done: Text := [];
      ghost var all := Relayed(total, chunks, sends);
      var received := 0;
      RelayStarts(all);
      assert forwarded + [] == forwarded && delivered + [] == delivered;
      while received < total
        invariant received == written == |done| <= total
        invariant forwarded == old(forwarded) + done && delivered == old(delivered) + done
        invariant Continues(all, done, Relayed(total - received, chunks, sends))
      {
        var wanted := if total - received > RELAY_CHUNK then RELAY_CHUNK else total - received;
        RelayStep(all, done, total - received, chunks, sends);
        ghost var offered := chunks;
        var data := Deliver(wanted);
        if data == [] { return false; }
        ghost var s := Send(data, sends);
        var sent := Write(data);
        if !sent {
          Regroup(old(forwarded), done, data[..s.count]);
          Regroup(old(delivered), done, data);
          return false;
        }
        Regroup(old(forwarded), done, data);
        Regroup(old(delivered), done, data);
        done := done + data;
        received := received + |data|;
      }
      RelayEnds(all, done, chunks, sends);
      ok := received == total;
    }

    /** One private upload command, with the status the host is told. */
    method Upload(target: Target, total: nat) returns (ok: bool)
      requires !connected && forwarded == [] && delivered == [] && !confirmed
      modifies this
      ensures !connected
      ensures var u := Uploaded(target, total, Link(begins, old(chunks), old(sends), confirms));
              ok == u.ok && confirmed == u.confirmed && forwarded == u.forwarded && delivered == u.delivered
    {
      hide Relayed, Allowed;
      ok := Begin(target, total);
      var received := false;
      if ok { received := ReceiveData(total); }
      if received {
        ok := Finish();
      } else {
        Abort();
      }
    }
  }
}
