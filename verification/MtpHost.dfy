/** What a host can rely on, seen only through the bytes and responses of whole exchanges. */
module MtpHost {
  import opened Bytes
  import opened MtpCatalog
  import opened MtpString
  import opened MtpWire
  import opened MtpServer
  import opened MtpEngine
  import opened MtpRuns
  import opened MtpInfo
  import Boxes

  // ---- listings ----

  function ReadWords(d: Text, at: nat, count: nat): (w: seq<nat>)
    requires at + 4 * count <= |d|
    ensures |w| == count
  {
    seq(count, i requires 0 <= i < count => ReadLe32(d, at + 4 * i))
  }

  /** A count, and that many handles with nothing behind them. */
  function ReadHandles(d: Text): Option<seq<nat>> {
    if |d| < 4 || |d| != 4 + 4 * ReadLe32(d, 0) then None else Some(ReadWords(d, 4, ReadLe32(d, 0)))
  }

  lemma {:induction false} WordsRead(values: seq<Word>, d: Text, at: nat)
    requires Boxes.At(d, at, Words(values))
    ensures ReadWords(d, at, |values|) == values
  {
    if values != [] {
      var last := |values| - 1;
      hide Le32, ReadLe32;
      Boxes.AtParts(d, at, Words(values[..last]), Le32(values[last]));
      WordsRead(values[..last], d, at);
      WordReads(values[last], d, at + 4 * last);
      forall i | 0 <= i < |values| ensures ReadLe32(d, at + 4 * i) == values[i] {
        if i < last { assert ReadWords(d, at, last)[i] == values[..last][i]; }
      }
    }
  }

  lemma {:induction false} HandlesRead(entries: Catalog, parent: Word, format: Short)
    ensures ReadHandles(HandleList(entries, parent, format)) == Some(Matching(entries, parent, format))
  {
    hide Le32, ReadLe32, Words, ReadWords, Matching;
    var handles := Matching(entries, parent, format);
    var d := Le32(|handles|) + Words(handles);
    assert Boxes.At(d, 0, Le32(|handles|)) && Boxes.At(d, 4, Words(handles));
    WordReads(|handles|, d, 0);
    WordsRead(handles, d, 4);
  }

  predicate Belongs(info: Info, parent: Word, format: Short) {
    info.parent == parent && (format == 0 || info.format == format)
  }

  /**
    Browsing is consistent over the wire: a handle is among those a host reads from an OK GetObjectHandles
    for the root or a folder exactly if the ObjectInfo it reads for that handle names that parent, and the
    format it asked for if it asked for one.
   */
  lemma {:induction false} BrowsingAgrees(entries: Catalog, space: Space, room: nat, session: Word, c: Record, x: Exchange,
                                          later: Word, g: Record, y: Exchange)
    requires Numbered(entries)
    requires Proper(session, entries, space, c, room, x) && x.response.code == OK && c.code == 0x1007 && c.p2 != ALL_HANDLES
    requires Proper(later, entries, space, g, room, y) && y.response.code == OK && g.code == 0x1008
    ensures var handles, info := ReadHandles(Payloads(x.chunks)), Payloads(y.chunks);
            && handles.Some? && |info| >= 52
            && (g.p0 in handles.value <==> Belongs(ReadHead(info), NamedParent(c.p2), c.p1 % 0x1_0000))
  {
    hide Proper, Payloads, HandleList, ReadHandles, Matching, ReadHead, ObjectInfo, ReadNames, Get, Numbered;
    ListingArrives(session, entries, space, c, room, x);
    HandlesRead(entries, c.p2, c.p1 % 0x1_0000);
    ObjectInfoArrives(later, entries, space, g, room, y);
    InfoReads(Get(entries, g.p0).value);
    MatchingExactly(entries, c.p2, c.p1 % 0x1_0000, g.p0);
  }

  /** GetNumObjects answers the number of handles that GetObjectHandles sends for the same parameters. */
  lemma {:induction false} CountsAgree(entries: Catalog, space: Space, room: nat, session: Word, c: Record, x: Exchange,
                                       later: Word, g: Record, y: Exchange)
    requires Proper(session, entries, space, c, room, x) && x.response.code == OK && c.code == 0x1006
    requires Proper(later, entries, space, g, room, y) && y.response.code == OK && g.code == 0x1007
    requires c.p1 == g.p1 && c.p2 == g.p2
    ensures ReadHandles(Payloads(y.chunks)).Some? && x.response.paramCount == 1
    ensures x.response.p0 == |ReadHandles(Payloads(y.chunks)).value|
  {
    hide Payloads, HandleList, ReadHandles, Matching, Answer, Proper;
    ListingArrives(later, entries, space, g, room, y);
    HandlesRead(entries, g.p2, g.p1 % 0x1_0000);
    CountAnswer(session, entries, space, c, room);
    ResponseStands(session, entries, space, c, room, x);
  }

  lemma {:induction false} ResponseStands(session: Word, entries: Catalog, space: Space, c: Record, room: nat, x: Exchange)
    requires Proper(session, entries, space, c, room, x) && x.response.code == OK
    ensures Answer(session, entries, space, c, room).reply.Some?
    ensures Answer(session, entries, space, c, room).reply.value.response == x.response
  {
    hide Answer, Stream, Delivers;
  }

  lemma {:induction false} CountAnswer(session: Word, entries: Catalog, space: Space, c: Record, room: nat)
    requires c.code == 0x1006
    ensures var a := Answer(session, entries, space, c, room);
            a.reply.Some? && a.reply.value.response.code == OK ==>
              a.reply.value.response.paramCount == 1
              && a.reply.value.response.p0 == |Matching(entries, c.p2, c.p1 % 0x1_0000)|
  {
    hide Matching, ListableParent, AnswerObject, AnswerStorage, AnswerProperty, DeviceInfo, InMemory;
  }

  // ---- objects ----

  lemma {:induction false} FetchAnswer(session: Word, entries: Catalog, space: Space, c: Record, room: nat)
    requires c.code == 0x1009
    ensures var a := Answer(session, entries, space, c, room);
            a.reply.Some? && a.reply.value.response.code == OK ==>
              && Get(entries, c.p0).Some? && Get(entries, c.p0).value.size < U32
              && a.reply.value.phase == Object(Get(entries, c.p0).value.size, c.p0)
  {
    hide ObjectInfo, AnswerListing, AnswerStorage, AnswerProperty, DeviceInfo, InMemory;
  }

  /**
    An OK GetObject opened the object with the handle of the command and no other, and the host received as
    many bytes as the ObjectInfo of that handle announces.
   */
  lemma {:induction false} FetchedAsAnnounced(entries: Catalog, space: Space, room: nat, session: Word, c: Record, x: Exchange,
                                              later: Word, g: Record, y: Exchange)
    requires Proper(session, entries, space, c, room, x) && x.response.code == OK && c.code == 0x1009
    requires Proper(later, entries, space, g, room, y) && y.response.code == OK && g.code == 0x1008 && g.p0 == c.p0
    ensures x.fetched == Some(c.p0)
    ensures |Payloads(y.chunks)| >= 52 && |Payloads(x.chunks)| == ReadHead(Payloads(y.chunks)).size
  {
    hide Payloads, ObjectInfo, Get, Answer, ReadHead, ReadNames, Stream;
    FetchAnswer(session, entries, space, c, room);
    DataArrives(session, entries, space, c, room, x);
    ObjectInfoArrives(later, entries, space, g, room, y);
    InfoReads(Get(entries, g.p0).value);
  }

  // ---- responses ----

  /** The response code of an answered command. */
  function CodeOf(a: Outcome): nat { if a.reply.Some? then a.reply.value.response.code else 0 }

  /**
    For the objects of a built catalogue: the handles 1 to count have an ObjectInfo, those behind the three
    folders an object, and those with a bitmap a thumbnail; everything else gets the code of its reason.
   */
  lemma {:induction false} ObjectCommandsExactly(session: Word, entries: Catalog, space: Space, c: Record, room: nat)
    requires session != 0 && Shaped(entries) && Sendable(entries) && room >= 4096 && c.paramCount <= 5
    requires c.code in {0x1008, 0x1009, 0x100a}
    ensures var known := 1 <= c.p0 <= |entries|;
            CodeOf(Answer(session, entries, space, c, room))
            == if c.paramCount == 0 then 0x201d
               else if !known || (c.p0 <= 3 && c.code != 0x1008) then 0x2009
               else if c.code == 0x100a && entries[c.p0 - 1].thumbSize == 0 then 0x2005
               else 0x2001
  {
    hide ObjectInfo, AnswerListing, AnswerStorage, AnswerProperty, DeviceInfo;
    if 1 <= c.p0 <= |entries| { assert Placed(entries[c.p0 - 1], c.p0 - 1); }
  }

  /** For listings of a built catalogue: the root, everything and the three folders can be listed. */
  lemma {:induction false} ListingCommandsExactly(session: Word, entries: Catalog, space: Space, c: Record, room: nat)
    requires session != 0 && Shaped(entries) && |entries| <= 0x3fff_fffe && c.paramCount <= 5 && c.code in {0x1006, 0x1007}
    ensures CodeOf(Answer(session, entries, space, c, room))
            == if c.paramCount < 3 || c.p0 !in {0x0001_0001, 0xffff_ffff} then 0x2008
               else if c.p2 !in {0, 1, 2, 3, 0xffff_ffff} then 0x2009
               else 0x2001
  {
    hide Matching, AnswerObject, AnswerStorage, AnswerProperty, DeviceInfo, InMemory;
  }

  /** Without a session only GetDeviceInfo and OpenSession are answered otherwise than with 0x2003. */
  lemma {:induction false} NoSessionNoService(entries: Catalog, space: Space, c: Record, room: nat)
    requires c.paramCount <= 5 && room >= 4096
    ensures CodeOf(Answer(0, entries, space, c, room))
            == if c.code == 0x1001 || (c.code == 0x1002 && c.paramCount == 1 && c.p0 != 0) then 0x2001
               else if c.code == 0x1002 then 0x201d else 0x2003
  {
    hide AnswerObject, AnswerListing, AnswerStorage, AnswerProperty, DeviceInfo;
  }

  /**
    In a session the server refuses the operations that the device does not advertise, and the six of the
    relay, as unsupported; the other advertised ones it never refuses so, except a property or a thumbnail
    that an object does not have.
   */
  lemma {:induction false} OnlyAdvertisedIsServed(session: Word, entries: Catalog, space: Space, c: Record, room: nat)
    requires session != 0 && c.paramCount <= 5
    ensures c.code !in OPERATIONS || 0x9ff0 <= c.code <= 0x9ff5 ==> CodeOf(Answer(session, entries, space, c, room)) == 0x2005
    ensures c.code in OPERATIONS && c.code < 0x9ff0 && c.code !in {0x100a, 0x9802, 0x9803} ==>
              CodeOf(Answer(session, entries, space, c, room)) != 0x2005
  {
    hide DeviceInfo, StorageInfo, ObjectInfo, Get, Children, ListableParent, Array16, Le32;
    assert OPERATIONS[0] == 0x1001 && OPERATIONS[1] == 0x1002 && OPERATIONS[2] == 0x1003 && OPERATIONS[3] == 0x1004;
    assert OPERATIONS[4] == 0x1005 && OPERATIONS[5] == 0x1006 && OPERATIONS[6] == 0x1007 && OPERATIONS[7] == 0x1008;
    assert OPERATIONS[8] == 0x1009 && OPERATIONS[9] == 0x100a && OPERATIONS[10] == 0x9801 && OPERATIONS[11] == 0x9802;
    assert OPERATIONS[12] == 0x9803;
  }
}
