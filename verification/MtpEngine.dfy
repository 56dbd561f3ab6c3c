/**
  The command runner of src/vita/mtp_engine.c on the transport of src/usb/mtpif_adapter.c. The device
  below the adapter answers arbitrarily; what goes over the wire is recorded as a trace of events.
 */
module MtpEngine {
  import opened Bytes
  import opened MtpCatalog
  import opened MtpString
  import opened MtpWire
  import opened MtpServer

  /** The most the adapter passes to the device at once. */
  const MAX_CHUNK: nat := 0x1_0000

  /** 256 by 256 pixels of three bytes and a 54-byte header. */
  const MAX_THUMB: nat := 196662

  datatype Event =
    | Opened(handle: Word)
    | Sent(transaction: Word, bytes: Text, offset: nat, total: nat)
    | Closed
    | Answered(response: Record, delivered: bool)

  // ---- contiguous data phases ----

  /** The events send `body` from its start in non-empty contiguous pieces, all announcing `total`. */
  ghost predicate Stream(events: seq<Event>, transaction: Word, total: nat, body: Text) {
    if events == [] then body == []
    else
      var last := events[|events| - 1];
      && last.Sent? && last.transaction == transaction && last.total == total
      && 0 < |last.bytes| <= MAX_CHUNK
      && last.offset + |last.bytes| == |body| <= total
      && last.bytes == body[last.offset..]
      && Stream(events[..|events| - 1], transaction, total, body[..last.offset])
  }

  lemma {:induction false} StreamGrows(events: seq<Event>, transaction: Word, total: nat, body: Text, more: Text)
    requires Stream(events, transaction, total, body)
    requires 0 < |more| <= MAX_CHUNK && |body| + |more| <= total
    ensures Stream(events + [Sent(transaction, more, |body|, total)], transaction, total, body + more)
  {
    var all := events + [Sent(transaction, more, |body|, total)];
    assert all[..|all| - 1] == events;
    assert (body + more)[..|body|] == body && (body + more)[|body|..] == more;
  }

  ghost function Payloads(events: seq<Event>): Text {
    if events == [] then []
    else
      var last := events[|events| - 1];
      Payloads(events[..|events| - 1]) + if last.Sent? then last.bytes else []
  }

  /** The chunks concatenate to the body, and a chunk's offset is the length of what came before. */
  lemma {:induction false} StreamConcatenates(events: seq<Event>, transaction: Word, total: nat, body: Text)
    requires Stream(events, transaction, total, body)
    ensures Payloads(events) == body
    ensures forall i :: 0 <= i < |events| ==>
              events[i].Sent? && events[i].transaction == transaction && events[i].offset == |Payloads(events[..i])|
  {
    if events != [] {
      var n := |events| - 1;
      var last := events[n];
      StreamConcatenates(events[..n], transaction, total, body[..last.offset]);
      assert body == body[..last.offset] + body[last.offset..];
      forall i | 0 <= i < |events|
        ensures events[i].Sent? && events[i].transaction == transaction && events[i].offset == |Payloads(events[..i])|
      {
        if i < n {
          assert events[i] == events[..n][i];
          assert events[..n][..i] == events[..i];
        }
      }
    }
  }

  // ---- the adapter ----

  class Adapter {
    var sent: nat
    var total: nat
    var remaining: nat
    ghost var trace: seq<Event>
    ghost var refused: bool
    ghost var failed: bool
    ghost var fetched: Text

    constructor ()
      ensures sent == 0 && total == 0 && trace == [] && !refused && !failed
    {
      sent, total, remaining, trace, refused, failed, fetched := 0, 0, 0, [], false, false, [];
    }

    /** Every command starts with a cleared context. */
    method Clear()
      modifies this
      ensures sent == 0 && total == 0 && trace == old(trace) && refused == old(refused) && failed == old(failed)
    {
      sent, total, remaining, fetched := 0, 0, 0, [];
    }

    /** The checks before anything reaches the device. */
    predicate Acceptable(count: nat, offset: nat, total: nat)
      reads this
    {
      0 < count <= MAX_CHUNK && offset == sent && offset <= total && (sent != 0 ==> total == this.total)
      && count <= total - offset
    }

    /** `refused` records a call that fails the checks, `failed` one that the device or the stream fails. */
    method SendData(c: Record, bytes: array<byte>, count: nat, offset: nat, total: nat) returns (ok: bool)
      requires count <= bytes.Length
      modifies this`sent, this`total, this`trace, this`refused, this`failed
      ensures refused == (old(refused) || !old(Acceptable(count, offset, total)))
      ensures failed == (old(failed) || (!ok && old(Acceptable(count, offset, total))))
      ensures ok ==> old(Acceptable(count, offset, total)) && sent == old(sent) + count && this.total == total
      ensures ok ==> trace == old(trace) + [Sent(c.transaction, bytes[..count], offset, total)]
      ensures !ok ==> trace == old(trace) && sent == old(sent) && this.total == old(this.total)
    {
      if !Acceptable(count, offset, total) {
        refused := true;
        return false;
      }
      var accepted: bool := *;
      if !accepted {
        failed := true;
        return false;
      }
      trace := trace + [Sent(c.transaction, bytes[..count], offset, total)];
      sent, this.total := sent + count, total;
      ok := true;
    }

    /** One attempt; the phase change before it or the device may fail. */
    method SendResponse(response: Record) returns (ok: bool)
      modifies this`trace
      ensures trace == old(trace) + [Answered(response, ok)]
    {
      ok := *;
      trace := trace + [Answered(response, ok)];
    }

    /** Opens only media, and only if the stream offers exactly the entry's size. */
    method OpenObject(e: Entry) returns (ok: bool)
      modifies this`trace, this`remaining, this`fetched, this`failed
      ensures failed == (old(failed) || !ok)
      ensures ok ==> trace == old(trace) + [Opened(e.handle)] && remaining == e.size && fetched == []
      ensures ok ==> e.kind < FOLDER && e.nativeId != 0
      ensures !ok ==> trace == old(trace)
    {
      var available: nat := *;
      if e.kind >= FOLDER || e.nativeId == 0 || available != e.size {
        failed := true;
        return false;
      }
      remaining := available;
      fetched := [];
      trace := trace + [Opened(e.handle)];
      ok := true;
    }

    /** At most `capacity` bytes of the stream, in order; none on failure. */
    method ReadObject(bytes: array<byte>, capacity: nat) returns (got: nat)
      requires capacity <= bytes.Length
      modifies this`remaining, this`fetched, this`failed, bytes
      ensures failed == (old(failed) || got == 0)
      ensures got <= capacity && got <= old(remaining) && remaining == old(remaining) - got
      ensures fetched == old(fetched) + bytes[..got]
    {
      var result: int := *;
      if result <= 0 || result > capacity || result > remaining {
        assert bytes[..0] == [];
        failed := true;
        return 0;
      }
      got := result;
      for i := 0 to got
        modifies bytes
      {
        bytes[i] := *;
      }
      remaining := remaining - got;
      fetched := fetched + bytes[..got];
    }

    method CloseObject()
      modifies this`trace, this`remaining
      ensures trace == old(trace) + [Closed]
    {
      remaining := 0;
      trace := trace + [Closed];
    }

    /** A photo's bitmap of at least a header, or 0. */
    method ReadThumb(e: Entry, bytes: array<byte>) returns (size: nat)
      modifies this`failed, bytes
      ensures failed == (old(failed) || size == 0)
      ensures size <= bytes.Length && size <= MAX_THUMB
    {
      var result: int := *;
      if e.kind != PHOTO || e.nativeId == 0 || result < 54 || result > bytes.Length || result > MAX_THUMB {
        failed := true;
        return 0;
      }
      size := result;
      for i := 0 to size
        modifies bytes
      {
        bytes[i] := *;
      }
    }
  }

  // ---- streaming handles ----

  /** The data set of GetObjectHandles: a count and the matching handles. */
  function HandleList(entries: Catalog, parent: Word, format: Short): (s: Text)
    ensures |s| == 4 + 4 * |Matching(entries, parent, format)|
  {
    var handles := Matching(entries, parent, format);
    Le32(|handles|) + Words(handles)
  }

  /** The bytes for the first i entries, under a count for all of them. */
  ghost function ListedSoFar(entries: Catalog, i: nat, parent: Word, format: Short): (s: Text)
    requires i <= |entries|
    ensures |s| == 4 + 4 * |Matching(entries[..i], parent, format)|
  {
    Le32(|Matching(entries, parent, format)|) + Words(Matching(entries[..i], parent, format))
  }

  lemma {:induction false} WordsAppend(values: seq<Word>, v: Word)
    ensures Words(values + [v]) == Words(values) + Le32(v)
  {
    assert (values + [v])[..|values|] == values;
  }

  lemma {:induction false} ListedStep(entries: Catalog, i: nat, parent: Word, format: Short)
    requires i < |entries|
    ensures ListedSoFar(entries, i + 1, parent, format)
         == ListedSoFar(entries, i, parent, format)
            + if Listed(entries[i], parent, format) then Le32(entries[i].handle) else []
  {
    hide Listed, Le32, Words;
    MatchingStep(entries, i, parent, format);
    hide Matching;
    var before := Matching(entries[..i], parent, format);
    if Listed(entries[i], parent, format) {
      WordsAppend(before, entries[i].handle);
    } else {
      assert before + [] == before;
    }
  }

  lemma {:induction false} ListedPrefix(entries: Catalog, i: nat, parent: Word, format: Short)
    requires i <= |entries|
    ensures ListedSoFar(entries, i, parent, format) <= HandleList(entries, parent, format)
    decreases |entries| - i
  {
    hide Listed, Le32, Words, Matching;
    if i == |entries| {
      assert entries[..i] == entries;
    } else {
      ListedStep(entries, i, parent, format);
      ListedPrefix(entries, i + 1, parent, format);
    }
  }

  lemma {:induction false} Le32Bytes(n: Word)
    ensures Le32(n) == [n % 256, n / 0x100 % 256, n / 0x1_0000 % 256, n / 0x100_0000]
  {
    assert n % 0x1_0000 % 256 == n % 256;
    assert n % 0x1_0000 / 256 == n / 0x100 % 256;
  }

  method PutLe32(out: array<byte>, at: nat, value: Word)
    requires at + 4 <= out.Length
    modifies out
    ensures out[..at] == old(out[..at]) && out[at..at + 4] == Le32(value)
  {
    Le32Bytes(value);
    hide Le32;
    var b0, b1, b2, b3 := value % 256, value / 0x100 % 256, value / 0x1_0000 % 256, value / 0x100_0000;
    out[at] := b0;
    out[at + 1] := b1;
    out[at + 2] := b2;
    out[at + 3] := b3;
    assert out[at..at + 4] == [b0, b1, b2, b3];
  }

  lemma {:induction false} ListedBounds(entries: Catalog, parent: Word, format: Short)
    ensures ListedSoFar(entries, 0, parent, format) == Le32(|Matching(entries, parent, format)|)
    ensures ListedSoFar(entries, |entries|, parent, format) == HandleList(entries, parent, format)
    ensures entries[..|entries|] == entries && Matching(entries[..0], parent, format) == []
  {
    hide Le32, Listed;
    assert entries[..0] == [] && entries[..|entries|] == entries;
  }

  /** `events` were sent since the trace was `start`, and make up `body`. */
  ghost predicate InStep(t: Adapter, start: seq<Event>, events: seq<Event>, transaction: Word, total: nat, body: Text)
    reads t
  {
    && t.trace == start + events && Stream(events, transaction, total, body)
    && t.sent == |body| && (t.sent != 0 ==> t.total == total)
  }

  /** Sends the first `count` bytes of the buffer as the next chunk. */
  method SendChunk(c: Record, t: Adapter, bytes: array<byte>, count: nat, offset: nat, total: nat,
                   ghost start: seq<Event>, ghost events: seq<Event>, ghost body: Text)
    returns (ok: bool, ghost events': seq<Event>, ghost body': Text)
    requires count <= bytes.Length && InStep(t, start, events, c.transaction, total, body)
    requires offset == |body|
    modifies t`sent, t`total, t`trace, t`refused, t`failed
    ensures InStep(t, start, events', c.transaction, total, body')
    ensures body' == (if ok then body + bytes[..count] else body) && |events'| == |events| + if ok then 1 else 0
    ensures ok ==> t.failed == old(t.failed) && t.refused == old(t.refused)
    ensures (!ok ==> t.failed || t.refused) && (old(t.failed) ==> t.failed)
    ensures t.refused == (old(t.refused) || !(0 < count <= MAX_CHUNK && |body| + count <= total))
  {
    hide Stream;
    events', body' := events, body;
    ok := t.SendData(c, bytes, count, offset, total);
    if ok {
      StreamGrows(events, c.transaction, total, body, bytes[..count]);
      events' := events + [Sent(c.transaction, bytes[..count], offset, total)];
      body' := body + bytes[..count];
    }
  }

  /** Adds one handle to the buffer, sending what it holds first if there is no room. */
  method PutHandle(c: Record, handle: Word, t: Adapter, scratch: array<byte>, capacity: nat, used: nat, offset: nat,
                   total: nat, ghost start: seq<Event>, ghost events: seq<Event>, ghost body: Text)
    returns (ok: bool, used': nat, ghost events': seq<Event>, ghost body': Text)
    requires 4 <= used <= capacity <= scratch.Length && 4096 <= capacity && |body| + used <= total
    requires InStep(t, start, events, c.transaction, total, body) && offset == |body|
    modifies t`sent, t`total, t`trace, t`refused, t`failed, scratch
    ensures InStep(t, start, events', c.transaction, total, body') && 4 <= used' <= capacity
    ensures ok ==> body' + scratch[..used'] == old(body + scratch[..used]) + Le32(handle)
    ensures |body'| == offset + if ok && capacity - used < 4 then used else 0
    ensures ok ==> t.failed == old(t.failed) && t.refused == old(t.refused)
    ensures !ok ==> body' == body && (old(t.failed) ==> t.failed) && (t.failed || t.refused)
    ensures capacity <= MAX_CHUNK ==> t.refused == old(t.refused)
  {
    hide Le32, InStep;
    ghost var kept := body + scratch[..used];
    ok, used', events', body' := true, used, events, body;
    if capacity - used < 4 {
      ok, events', body' := SendChunk(c, t, scratch, used, offset, total, start, events, body);
      if !ok { return; }
      used' := 0;
    }
    ghost var front := scratch[..used'];
    assert body' + front == kept;
    PutLe32(scratch, used', handle);
    assert scratch[..used' + 4] == front + Le32(handle) by {
      assert scratch[..used' + 4] == scratch[..used'] + scratch[used'..used' + 4];
    }
    used' := used' + 4;
    assert body' + (front + Le32(handle)) == kept + Le32(handle);
  }

  /**
    Streams the handle list through the scratch buffer. The chunks are a prefix of the list, all of it
    on success. Only the device can make it fail: a wrong count cannot occur, and within the adapter's
    chunk size no chunk fails its checks.
   */
  method SendHandles(server: Server, c: Record, length: Word, parent: Word, format: Short,
                     t: Adapter, scratch: array<byte>, capacity: nat, ghost start: seq<Event>)
    returns (ok: bool, ghost events: seq<Event>, ghost body: Text)
    requires 4096 <= capacity <= scratch.Length && InStep(t, start, [], c.transaction, length, [])
    requires length == 4 + 4 * |Matching(server.entries, parent, format)|
    modifies t`sent, t`total, t`trace, t`refused, t`failed, scratch
    ensures InStep(t, start, events, c.transaction, length, body)
    ensures body <= HandleList(server.entries, parent, format)
    ensures ok ==> body == HandleList(server.entries, parent, format)
    ensures (ok ==> t.failed == old(t.failed) && t.refused == old(t.refused))
    ensures (!ok ==> t.failed || t.refused) && (old(t.failed) ==> t.failed)
    ensures capacity <= MAX_CHUNK ==> t.refused == old(t.refused)
  {
    hide Listed, Le32, Words, Matching, InStep, HandleList, ListedSoFar;
    ghost var entries := server.entries;
    var expected: Word := (length - 4) / 4;
    var offset, used, found := 0, 4, 0;
    events, body := [], [];
    PutLe32(scratch, 0, expected);
    ListedBounds(entries, parent, format);
    assert scratch[..4] == scratch[0..4];
    for i := 0 to |server.entries|
      invariant 4 <= used <= capacity && found == |Matching(entries[..i], parent, format)| && offset == |body|
      invariant InStep(t, start, events, c.transaction, length, body)
      invariant ListedSoFar(entries, i, parent, format) == body + scratch[..used]
      invariant t.failed == old(t.failed) && t.refused == old(t.refused)
    {
      var e := server.entries[i];
      ListedPrefix(entries, i, parent, format);
      ListedStep(entries, i, parent, format);
      MatchingStep(entries, i, parent, format);
      if Listed(e, parent, format) {
        var flushed := capacity - used < 4;
        var before := used;
        ok, used, events, body := PutHandle(c, e.handle, t, scratch, capacity, used, offset, length, start, events, body);
        if !ok { return; }
        if flushed { offset := offset + before; }
        found := found + 1;
      }
    }
    ok := found == expected;
    if ok {
      ok, events, body := SendChunk(c, t, scratch, used, offset, length, start, events, body);
    }
  }

  // ---- streaming an object ----

  /** What a fetch of an object put on the wire. */
  ghost predicate Fetched(t: Adapter, start: seq<Event>, began: bool, handle: Word, events: seq<Event>)
    reads t
  {
    t.trace == if began then start + [Opened(handle)] + events + [Closed] else start
  }

  /**
    Copies the stream to the data phase. The stream is closed exactly if it was began, what is sent is
    what was read in that order, and success means the announced length was sent.
   */
  method SendObject(server: Server, c: Record, length: Word, handle: Word, t: Adapter, scratch: array<byte>,
                    capacity: nat, ghost start: seq<Event>)
    returns (ok: bool, ghost began: bool, ghost events: seq<Event>, ghost body: Text)
    requires 4096 <= capacity <= scratch.Length && t.trace == start && t.sent == 0
    requires Get(server.entries, handle).Some?
    modifies t, scratch
    ensures Fetched(t, start, began, handle, events) && Stream(events, c.transaction, length, body)
    ensures began ==> body <= t.fetched
    ensures !began ==> events == []
    ensures ok ==> began && body == t.fetched && |body| == length
    ensures ok ==> t.failed == old(t.failed) && t.refused == old(t.refused)
    ensures (!ok ==> t.failed || t.refused) && (old(t.failed) ==> t.failed)
    ensures capacity <= MAX_CHUNK ==> t.refused == old(t.refused)
  {
    events, body, began := [], [], false;
    var e := Get(server.entries, handle).value;
    ok := t.OpenObject(e);
    if !ok { return; }
    began := true;
    ghost var inside := start + [Opened(handle)];
    assert inside + [] == inside;
    var offset := 0;
    while offset < length && ok
      invariant offset <= length && (ok ==> offset == |body|)
      invariant InStep(t, inside, events, c.transaction, length, body) && body <= t.fetched
      invariant ok ==> body == t.fetched
      invariant ok ==> t.failed == old(t.failed) && t.refused == old(t.refused)
      invariant (!ok ==> t.failed || t.refused) && (old(t.failed) ==> t.failed)
      invariant capacity <= MAX_CHUNK ==> t.refused == old(t.refused)
      decreases ok, length - offset
    {
      var wanted := if length - offset > capacity then capacity else length - offset;
      var got := t.ReadObject(scratch, wanted);
      ok := got > 0;
      if ok {
        ok, events, body := SendChunk(c, t, scratch, got, offset, length, inside, events, body);
        offset := offset + got;
      }
    }
    t.CloseObject();
  }
}
