/**
  The session and dispatch machine of src/vita/mtp_server.c. `Answer` is its meaning on values;
  `Server.Execute` is the operation itself, which updates the session and fills the payload buffer.
 */
module MtpServer {
  import opened Bytes
  import opened MtpCatalog
  import opened MtpString
  import opened MtpWire

  const OK: Short := 0x2001
  const GENERAL_ERROR: Short := 0x2002
  const SESSION_NOT_OPEN: Short := 0x2003
  const OPERATION_NOT_SUPPORTED: Short := 0x2005
  const INVALID_STORAGE_ID: Short := 0x2008
  const INVALID_OBJECT_HANDLE: Short := 0x2009
  const INVALID_PARAMETER: Short := 0x201d
  const SESSION_ALREADY_OPEN: Short := 0x201e

  const MOST_HANDLES: nat := 0x3fff_fffe

  /** Handles are 32 bits wide. */
  type Catalog = s: seq<Entry> | |s| < 0x1_0000_0000

  /** A command or response record; at most five parameters. */
  datatype Record = Record(code: Short, session: Word, transaction: Word,
                           p0: Word, p1: Word, p2: Word, p3: Word, p4: Word, paramCount: Word)

  datatype Phase =
    | NoData
    | Memory(length: Word)
    | Handles(length: Word, parent: Word, format: Short)
    | Object(length: Word, handle: Word)
    | Thumb(handle: Word)

  datatype Reply = Reply(response: Record, phase: Phase)

  datatype Space = Space(capacity: Quad, free: Quad)

  /** The new session, the reply unless execution failed, and the payload for a memory phase. */
  datatype Outcome = Outcome(session: Word, reply: Option<Reply>, payload: Text)

  function Response(c: Record, code: Short): Record {
    Record(code, c.session, c.transaction, 0, 0, 0, 0, 0, 0)
  }

  function Status(session: Word, c: Record, code: Short): Outcome {
    Outcome(session, Some(Reply(Response(c, code), NoData)), [])
  }

  function Announce(session: Word, c: Record, phase: Phase): Outcome {
    Outcome(session, Some(Reply(Response(c, OK), phase)), [])
  }

  /** A payload that does not fit fails the execution. */
  function InMemory(session: Word, c: Record, bytes: Text, room: nat): Outcome {
    if |bytes| <= room && |bytes| < U32 then Outcome(session, Some(Reply(Response(c, OK), Memory(|bytes|))), bytes)
    else Outcome(session, None, [])
  }

  predicate StorageValid(id: Word) { id == STORAGE_ID || id == 0xffff_ffff }

  function Answer(session: Word, entries: Catalog, space: Space, c: Record, room: nat): Outcome {
    if c.paramCount > 5 then Status(session, c, INVALID_PARAMETER)
    else if c.code == 0x1001 then InMemory(session, c, DeviceInfo(), room)
    else if c.code == 0x1002 then
      if c.paramCount != 1 || c.p0 == 0 then Status(session, c, INVALID_PARAMETER)
      else if session != 0 then Status(session, c, SESSION_ALREADY_OPEN)
      else Status(c.p0, c, OK)
    else if session == 0 then Status(session, c, SESSION_NOT_OPEN)
    else if c.code == 0x1003 then Status(0, c, OK)
    else if c.code in {0x1004, 0x1005} then AnswerStorage(session, space, c, room)
    else if c.code in {0x9801, 0x9802, 0x9803} then AnswerProperty(session, entries, c, room)
    else if c.code in {0x1006, 0x1007} then AnswerListing(session, entries, c)
    else if c.code in {0x1008, 0x1009, 0x100a} then AnswerObject(session, entries, c, room)
    else Status(session, c, OPERATION_NOT_SUPPORTED)
  }

  function AnswerStorage(session: Word, space: Space, c: Record, room: nat): Outcome {
    if c.code == 0x1004 then InMemory(session, c, Le32(1) + Le32(STORAGE_ID), room)
    else if c.paramCount < 1 || c.p0 != STORAGE_ID then Status(session, c, INVALID_STORAGE_ID)
    else InMemory(session, c, StorageInfo(space.capacity, space.free), room)
  }

  function AnswerProperty(session: Word, entries: Catalog, c: Record, room: nat): Outcome {
    if c.code == 0x9801 then
      if c.paramCount < 1 then Outcome(session, None, [])
      else InMemory(session, c, Array16(PropList(c.p0 % 0x1_0000)), room)
    else if c.code == 0x9802 then
      if c.paramCount < 2 || !Supported(c.p0 % 0x1_0000, c.p1 % 0x1_0000) || |PropDesc(c.p0 % 0x1_0000)| > room
      then Status(session, c, OPERATION_NOT_SUPPORTED)
      else InMemory(session, c, PropDesc(c.p0 % 0x1_0000), room)
    else if c.paramCount < 2 then Status(session, c, INVALID_PARAMETER)
    else match Get(entries, c.p0)
      case None => Status(session, c, INVALID_OBJECT_HANDLE)
      case Some(e) =>
        if !Supported(c.p1 % 0x1_0000, e.format) || |PropValue(e, c.p1 % 0x1_0000)| > room
        then Status(session, c, OPERATION_NOT_SUPPORTED)
        else InMemory(session, c, PropValue(e, c.p1 % 0x1_0000), room)
  }

  function AnswerListing(session: Word, entries: Catalog, c: Record): Outcome {
    if c.paramCount < 3 || !StorageValid(c.p0) then Status(session, c, INVALID_STORAGE_ID)
    else
      var format := c.p1 % 0x1_0000;
      if !ListableParent(entries, c.p2) then Status(session, c, INVALID_OBJECT_HANDLE)
      else
        var count := |Children(entries, c.p2, format)|;
        if c.code == 0x1006 then
          Outcome(session, Some(Reply(Response(c, OK).(p0 := count, paramCount := 1), NoData)), [])
        else if count <= MOST_HANDLES then Announce(session, c, Handles(4 + 4 * count, c.p2, format))
        else Status(session, c, GENERAL_ERROR)
  }

  function AnswerObject(session: Word, entries: Catalog, c: Record, room: nat): Outcome {
    if c.paramCount < 1 then Status(session, c, INVALID_PARAMETER)
    else match Get(entries, c.p0)
      case None => Status(session, c, INVALID_OBJECT_HANDLE)
      case Some(e) =>
        if e.size > 0xffff_ffff - 12 then Status(session, c, GENERAL_ERROR)
        else if c.code == 0x1008 then InMemory(session, c, ObjectInfo(e), room)
        else if e.kind == FOLDER then Status(session, c, INVALID_OBJECT_HANDLE)
        else if c.code == 0x100a && e.thumbSize == 0 then Status(session, c, OPERATION_NOT_SUPPORTED)
        else Announce(session, c, if c.code == 0x100a then Thumb(e.handle) else Object(e.size, e.handle))
  }

  // ---- what every answer keeps ----

  /** The reply's session and transaction are the command's; data comes only with OK. */
  predicate Echoes(c: Record, a: Outcome, room: nat) {
    a.reply.Some? ==>
      var r := a.reply.value;
      && r.response.session == c.session && r.response.transaction == c.transaction
      && (!r.phase.NoData? ==> r.response.code == OK)
      && (r.phase.Memory? ==> r.phase.length == |a.payload| <= room)
  }

  lemma {:induction false} PropertyEchoes(session: Word, entries: Catalog, c: Record, room: nat)
    ensures Echoes(c, AnswerProperty(session, entries, c, room), room)
  {
    hide PropList, PropDesc, PropValue, Supported, Array16, Get;
  }

  lemma {:induction false} ListingAndObjectEcho(session: Word, entries: Catalog, c: Record, room: nat)
    ensures Echoes(c, AnswerListing(session, entries, c), room)
    ensures Echoes(c, AnswerObject(session, entries, c, room), room)
  {
    hide Children, ListableParent, ObjectInfo, Get;
  }

  /** Every reply echoes, and has data only in an open session or for GetDeviceInfo. */
  lemma {:induction false} AnswersEcho(session: Word, entries: Catalog, space: Space, c: Record, room: nat)
    ensures var a := Answer(session, entries, space, c, room);
            && Echoes(c, a, room)
            && (a.reply.Some? && !a.reply.value.phase.NoData? ==> session != 0 || c.code == 0x1001)
  {
    PropertyEchoes(session, entries, c, room);
    ListingAndObjectEcho(session, entries, c, room);
    hide AnswerProperty, AnswerListing, AnswerObject, DeviceInfo, StorageInfo, Le32;
  }

  /** The session changes only by a well-formed OpenSession while none is open, and by CloseSession. */
  lemma {:induction false} SessionsOpenAndClose(session: Word, entries: Catalog, space: Space, c: Record, room: nat)
    ensures var after := Answer(session, entries, space, c, room).session;
            after == if c.code == 0x1002 && c.paramCount == 1 && session == 0 then c.p0
                     else if c.code == 0x1003 && c.paramCount <= 5 then 0
                     else session
  {
    hide DeviceInfo, StorageInfo, PropList, PropDesc, PropValue, ObjectInfo, Supported, Children, ListableParent, Le32, Array16;
  }

  /** With 4096 bytes of room every data set fits: only GetObjectPropsSupported without its parameter fails. */
  lemma {:induction false} ExecutionFailsOnlyWithoutFormat(session: Word, entries: Catalog, space: Space, c: Record, room: nat)
    requires room >= 4096
    ensures Answer(session, entries, space, c, room).reply.None?
       <==> session != 0 && c.code == 0x9801 && c.paramCount == 0
  {
    hide DeviceInfo, StorageInfo, PropDesc, PropValue, ObjectInfo, Supported, Children, ListableParent;
  }

  // ---- closure ----

  function ReadLe32(d: Text, at: nat): nat
    requires at + 4 <= |d|
  {
    d[at] as int + d[at + 1] as int * 0x100 + d[at + 2] as int * 0x1_0000 + d[at + 3] as int * 0x100_0000
  }

  lemma {:induction false} Le32Reads(n: Word, d: Text, at: nat)
    requires at + 4 <= |d| && d[at..at + 4] == Le32(n)
    ensures ReadLe32(d, at) == n
  {
    var piece := d[at..at + 4];
    assert d[at] == piece[0] && d[at + 1] == piece[1] && d[at + 2] == piece[2] && d[at + 3] == piece[3];
  }

  lemma {:induction false} InfoHeadSize(e: Entry)
    requires e.size < U32
    ensures InfoHead(e)[8..12] == Le32(e.size)
  {
    hide Le16, Le32;
    var prefix := Le32(STORAGE_ID) + Le16(e.format) + Le16(1);
    var rest := InfoHead(e)[12..];
    assert |prefix| == 8;
    assert InfoHead(e)[..12] == prefix + Le32(e.size);
  }

  /** Bytes 8 to 11 of an ObjectInfo hold the size. */
  lemma {:induction false} InfoSize(e: Entry)
    requires e.size < U32
    ensures ReadLe32(ObjectInfo(e), 8) == e.size
  {
    InfoHeadSize(e);
    hide InfoHead, Encoded, CString, ReadLe32, Le32;
    assert ObjectInfo(e)[..52] == InfoHead(e);
    assert ObjectInfo(e)[8..12] == ObjectInfo(e)[..52][8..12];
    Le32Reads(e.size, ObjectInfo(e), 8);
  }

  /** Every entry's size can be announced. */
  predicate Sendable(entries: Catalog) {
    forall i :: 0 <= i < |entries| ==> entries[i].size <= 0xffff_fff3
  }

  /**
    For the handle in c.p0: GetObjectInfo answers OK with the entry's ObjectInfo in at most 4096 bytes, and
    GetObject announces the size that this ObjectInfo carries, unless it is a folder.
   */
  predicate ObjectConsistent(session: Word, entries: Catalog, space: Space, c: Record, room: nat) {
    Get(entries, c.p0).Some? &&
    var e := Get(entries, c.p0).value;
    e.handle == c.p0 && e.size < U32 &&
    var info := Answer(session, entries, space, c.(code := 0x1008), room);
    var fetch := Answer(session, entries, space, c.(code := 0x1009), room);
    && info.reply == Some(Reply(Response(c, OK), Memory(|ObjectInfo(e)|)))
    && info.payload == ObjectInfo(e) && 52 < |info.payload| <= 4096
    && var size := ReadLe32(info.payload, 8);
       fetch.reply == Some(if e.kind == FOLDER then Reply(Response(c, INVALID_OBJECT_HANDLE), NoData)
                           else Reply(Response(c, OK), Object(size, c.p0)))
  }

  lemma {:induction false} ObjectAnswers(session: Word, entries: Catalog, space: Space, c: Record, room: nat)
    requires session != 0 && room >= 4096 && 1 <= c.paramCount <= 5
    requires Get(entries, c.p0).Some? && Get(entries, c.p0).value.size <= 0xffff_fff3
    ensures ObjectConsistent(session, entries, space, c, room)
  {
    hide ObjectInfo, ReadLe32, AnswerStorage, AnswerProperty, AnswerListing, DeviceInfo;
    InfoSize(Get(entries, c.p0).value);
  }

  /**
    In a built catalogue, every handle a listing yields gets an OK ObjectInfo, and for everything but a
    folder GetObject announces exactly the size that this ObjectInfo carries.
   */
  lemma {:induction false} ListedObjectsAreConsistent(session: Word, entries: Catalog, space: Space, c: Record, room: nat,
                                   parent: Word, format: Short, k: nat)
    requires session != 0 && Numbered(entries) && Sendable(entries) && room >= 4096
    requires k < |Children(entries, parent, format)| && c.p0 == Children(entries, parent, format)[k]
    requires 1 <= c.paramCount <= 5
    ensures ObjectConsistent(session, entries, space, c, room)
  {
    hide ObjectConsistent, Matching;
    ListedCanBeFetched(entries, parent, format, k);
    ObjectAnswers(session, entries, space, c, room);
  }

  // ---- the operation ----

  class Server {
    var session: Word
    const entries: Catalog
    var space: Space

    constructor (entries: Catalog)
      ensures session == 0 && this.entries == entries && space == Space(0, 0)
    {
      session, this.entries, space := 0, entries, Space(0, 0);
    }

    /** More free bytes than there are bytes count as none. */
    method SetStorage(capacity: Quad, free: Quad)
      modifies this`space
      ensures space.capacity == capacity && space.free <= capacity && (free <= capacity ==> space.free == free)
    {
      space := Space(capacity, if free <= capacity then free else 0);
    }

    /** The reply and, for a memory phase, the payload buffer are those of the answer. */
    ghost predicate Gives(a: Outcome, reply: Option<Reply>, payload: array<byte>)
      reads this, payload
    {
      && a.session == session && a.reply == reply
      && (reply.Some? && reply.value.phase.Memory? ==>
            reply.value.phase.length <= payload.Length && payload[..reply.value.phase.length] == a.payload)
    }

    /** Turns a finished writer into a reply. */
    method Finish(c: Record, w: Writer, ok: bool, ghost bytes: Text) returns (reply: Option<Reply>)
      requires w.Carries(bytes) && ok == (|bytes| <= w.capacity) && w.capacity < U32
      ensures Gives(InMemory(session, c, bytes, w.capacity), reply, w.data)
    {
      if !ok { return None; }
      assert w.data[..w.length] == bytes;
      reply := Some(Reply(Response(c, OK), Memory(w.length)));
    }

    method ExecuteStorage(c: Record, w: Writer) returns (reply: Option<Reply>)
      requires w.Carries([]) && w.capacity < U32 && c.code in {0x1004, 0x1005}
      modifies w, w.data
      ensures Gives(AnswerStorage(session, space, c, w.capacity), reply, w.data)
    {
      hide Le32, StorageInfo, InMemory;
      var ok;
      if c.code == 0x1004 {
        ok := WriteStorageIds(w);
        reply := Finish(c, w, ok, Le32(1) + Le32(STORAGE_ID));
      } else if c.paramCount < 1 || c.p0 != STORAGE_ID {
        reply := Some(Reply(Response(c, INVALID_STORAGE_ID), NoData));
      } else {
        ok := WriteStorageInfo(w, space.capacity, space.free);
        reply := Finish(c, w, ok, StorageInfo(space.capacity, space.free));
      }
    }

    method ExecuteProperty(c: Record, w: Writer) returns (reply: Option<Reply>)
      requires w.Carries([]) && w.capacity < U32 && c.code in {0x9801, 0x9802, 0x9803}
      modifies w, w.data
      ensures Gives(AnswerProperty(session, entries, c, w.capacity), reply, w.data)
    {
      hide PropList, PropDesc, PropValue, Supported, Array16, InMemory;
      var ok;
      if c.code == 0x9801 {
        if c.paramCount < 1 { return None; }
        ok := WritePropList(w, c.p0 % 0x1_0000);
        reply := Finish(c, w, ok, Array16(PropList(c.p0 % 0x1_0000)));
      } else if c.code == 0x9802 {
        ok := false;
        if c.paramCount >= 2 { ok := WritePropDesc(w, c.p0 % 0x1_0000, c.p1 % 0x1_0000); }
        if !ok { return Some(Reply(Response(c, OPERATION_NOT_SUPPORTED), NoData)); }
        reply := Finish(c, w, ok, PropDesc(c.p0 % 0x1_0000));
      } else if c.paramCount < 2 {
        reply := Some(Reply(Response(c, INVALID_PARAMETER), NoData));
      } else {
        reply := ExecutePropValue(c, w);
      }
    }

    method ExecutePropValue(c: Record, w: Writer) returns (reply: Option<Reply>)
      requires w.Carries([]) && w.capacity < U32 && c.code == 0x9803 && c.paramCount >= 2
      modifies w, w.data
      ensures Gives(AnswerProperty(session, entries, c, w.capacity), reply, w.data)
    {
      hide PropValue, Supported, InMemory, Get;
      var found := Get(entries, c.p0);
      if found.None? { return Some(Reply(Response(c, INVALID_OBJECT_HANDLE), NoData)); }
      var ok := WritePropValue(w, found.value, c.p1 % 0x1_0000);
      if !ok { return Some(Reply(Response(c, OPERATION_NOT_SUPPORTED), NoData)); }
      reply := Finish(c, w, ok, PropValue(found.value, c.p1 % 0x1_0000));
    }

    method ExecuteListing(c: Record) returns (reply: Reply)
      requires c.code in {0x1006, 0x1007}
      ensures AnswerListing(session, entries, c) == Outcome(session, Some(reply), [])
    {
      hide ListableParent, Children;
      if c.paramCount < 3 || !StorageValid(c.p0) { return Reply(Response(c, INVALID_STORAGE_ID), NoData); }
      var format, parent := c.p1 % 0x1_0000, c.p2;
      if !ListableParent(entries, parent) { return Reply(Response(c, INVALID_OBJECT_HANDLE), NoData); }
      var none := new Word[0];
      var count := ListChildren(entries, parent, format, none);
      if c.code == 0x1006 {
        reply := Reply(Response(c, OK).(p0 := count, paramCount := 1), NoData);
      } else if count <= MOST_HANDLES {
        reply := Reply(Response(c, OK), Handles(4 + 4 * count, parent, format));
      } else {
        reply := Reply(Response(c, GENERAL_ERROR), NoData);
      }
    }

    method ExecuteObject(c: Record, w: Writer) returns (reply: Option<Reply>)
      requires w.Carries([]) && w.capacity < U32 && c.code in {0x1008, 0x1009, 0x100a}
      modifies w, w.data
      ensures Gives(AnswerObject(session, entries, c, w.capacity), reply, w.data)
    {
      hide ObjectInfo, InMemory, Get;
      if c.paramCount < 1 { return Some(Reply(Response(c, INVALID_PARAMETER), NoData)); }
      var found := Get(entries, c.p0);
      if found.None? { return Some(Reply(Response(c, INVALID_OBJECT_HANDLE), NoData)); }
      var e := found.value;
      if e.size > 0xffff_ffff - 12 { return Some(Reply(Response(c, GENERAL_ERROR), NoData)); }
      if c.code == 0x1008 {
        var ok := WriteObjectInfo(w, e);
        reply := Finish(c, w, ok, ObjectInfo(e));
        return;
      }
      if e.kind == FOLDER { return Some(Reply(Response(c, INVALID_OBJECT_HANDLE), NoData)); }
      if c.code == 0x100a && e.thumbSize == 0 { return Some(Reply(Response(c, OPERATION_NOT_SUPPORTED), NoData)); }
      reply := Some(Reply(Response(c, OK), if c.code == 0x100a then Thumb(e.handle) else Object(e.size, e.handle)));
    }

    /** One command. None is the failure return. */
    method Execute(c: Record, payload: array<byte>, capacity: nat) returns (reply: Option<Reply>)
      requires capacity <= payload.Length && capacity < U32
      modifies this`session, payload
      ensures Gives(Answer(old(session), entries, space, c, capacity), reply, payload)
    {
      hide AnswerStorage, AnswerProperty, AnswerListing, AnswerObject, DeviceInfo, InMemory;
      if c.paramCount > 5 { return Some(Reply(Response(c, INVALID_PARAMETER), NoData)); }
      var w := new Writer(payload, capacity);
      assert w.Carries([]);
      if c.code == 0x1001 {
        var ok := WriteDeviceInfo(w);
        reply := Finish(c, w, ok, DeviceInfo());
      } else if c.code == 0x1002 {
        if c.paramCount != 1 || c.p0 == 0 { return Some(Reply(Response(c, INVALID_PARAMETER), NoData)); }
        if session != 0 { return Some(Reply(Response(c, SESSION_ALREADY_OPEN), NoData)); }
        session := c.p0;
        reply := Some(Reply(Response(c, OK), NoData));
      } else if session == 0 {
        reply := Some(Reply(Response(c, SESSION_NOT_OPEN), NoData));
      } else if c.code == 0x1003 {
        session := 0;
        reply := Some(Reply(Response(c, OK), NoData));
      } else {
        reply := ExecuteInSession(c, w);
      }
    }

    method ExecuteInSession(c: Record, w: Writer) returns (reply: Option<Reply>)
      requires w.Carries([]) && w.capacity < U32
      requires session != 0 && c.paramCount <= 5 && c.code !in {0x1001, 0x1002, 0x1003}
      modifies w, w.data
      ensures Gives(Answer(session, entries, space, c, w.capacity), reply, w.data)
    {
      hide AnswerStorage, AnswerProperty, AnswerListing, AnswerObject, DeviceInfo;
      if c.code in {0x1004, 0x1005} {
        reply := ExecuteStorage(c, w);
      } else if c.code in {0x9801, 0x9802, 0x9803} {
        reply := ExecuteProperty(c, w);
      } else if c.code in {0x1006, 0x1007} {
        var listing := ExecuteListing(c);
        AnswersEcho(session, entries, space, c, w.capacity);
        ListingHasNoPayload(session, entries, c);
        reply := Some(listing);
      } else if c.code in {0x1008, 0x1009, 0x100a} {
        reply := ExecuteObject(c, w);
      } else {
        reply := Some(Reply(Response(c, OPERATION_NOT_SUPPORTED), NoData));
      }
    }
  }

  lemma {:induction false} ListingHasNoPayload(session: Word, entries: Catalog, c: Record)
    ensures var a := AnswerListing(session, entries, c); a.reply.Some? && !a.reply.value.phase.Memory?
  {
    hide Children, ListableParent;
  }
}
