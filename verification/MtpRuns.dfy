/**
  Whole runs of the MTP responder: one exchange per command (vcm_mtp_engine_run in
  src/vita/mtp_engine.c), and what the wire carries over every sequence of commands.
 */
module MtpRuns {
  import opened Bytes
  import opened MtpCatalog
  import opened MtpWire
  import opened MtpServer
  import opened MtpEngine
  import Dxt1

  /** What one command puts on the wire: a data phase, possibly inside an open object, and a response. */
  datatype Exchange = Exchange(fetched: Option<Word>, chunks: seq<Event>, body: Text, total: nat, response: Record,
                               delivered: bool)

  function DataEvents(x: Exchange): seq<Event> {
    match x.fetched
    case Some(h) => [Opened(h)] + x.chunks + [Closed]
    case None => x.chunks
  }

  function Events(x: Exchange): seq<Event> { DataEvents(x) + [FinalEvent(x)] }

  function FinalEvent(x: Exchange): Event { Answered(x.response, x.delivered) }

  /** The content of a data phase the server announced; None where the device decides it. */
  function Content(entries: Catalog, a: Outcome): Option<Text>
    requires a.reply.Some?
  {
    match a.reply.value.phase
    case NoData => Some([])
    case Memory(_) => Some(a.payload)
    case Handles(_, parent, format) => Some(HandleList(entries, parent, format))
    case _ => None
  }

  function Announced(p: Phase): Option<nat> {
    match p
    case NoData => Some(0)
    case Memory(n) => Some(n)
    case Handles(n, _, _) => Some(n)
    case Object(n, _) => Some(n)
    case Thumb(_) => None
  }

  /** The data phase keeps what the answer announced. */
  ghost predicate Delivers(entries: Catalog, a: Outcome, x: Exchange)
    requires a.reply.Some?
  {
    var phase := a.reply.value.phase;
    && (Announced(phase).Some? ==> x.total == Announced(phase).value)
    && (Content(entries, a).Some? ==> x.body <= Content(entries, a).value)
    && (phase.Thumb? ==> |x.chunks| <= 1)
    && (x.fetched.Some? ==> phase.Object? && x.fetched.value == phase.handle)
    && (a.reply.value.response.code == OK && x.response.code == OK ==>
          && |x.body| == x.total && (phase.Object? ==> x.fetched.Some?)
          && (Content(entries, a).Some? ==> x.body == Content(entries, a).value))
  }

  /** The response is the server's, or says that the data phase or the execution failed. */
  predicate Responds(a: Outcome, c: Record, response: Record) {
    match a.reply
    case None => response == c.(code := GENERAL_ERROR, paramCount := 0)
    case Some(r) => response == r.response || (r.response.code == OK && response == r.response.(code := GENERAL_ERROR))
  }

  ghost predicate Proper(session: Word, entries: Catalog, space: Space, c: Record, room: nat, x: Exchange) {
    var a := Answer(session, entries, space, c, room);
    && x.response.session == c.session && x.response.transaction == c.transaction
    && Responds(a, c, x.response)
    && Stream(x.chunks, c.transaction, x.total, x.body)
    && (x.chunks != [] || x.fetched.Some? ==> session != 0 || c.code == 0x1001)
    && (if a.reply.Some? then Delivers(entries, a, x) else x.chunks == [] && x.fetched.None?)
  }

  /** What one data phase left on the wire, before the response. */
  ghost predicate Carried(t: Adapter, start: seq<Event>, x: Exchange)
    reads t
  {
    t.trace == start + DataEvents(x)
  }

  lemma {:induction false} ObjectCarried(t: Adapter, start: seq<Event>, x: Exchange)
    requires x.fetched.Some? && Fetched(t, start, true, x.fetched.value, x.chunks)
    ensures Carried(t, start, x)
  {
    var h := x.fetched.value;
    assert start + [Opened(h)] + x.chunks + [Closed] == start + ([Opened(h)] + x.chunks + [Closed]);
  }

  /** A listing announces the length of the handle list. */
  lemma {:induction false} ListingLength(session: Word, entries: Catalog, space: Space, c: Record, room: nat)
    ensures var a := Answer(session, entries, space, c, room);
            a.reply.Some? && a.reply.value.phase.Handles? ==>
              var p := a.reply.value.phase; p.length == 4 + 4 * |Matching(entries, p.parent, p.format)|
  {
    hide Matching, Get, DeviceInfo, StorageInfo, ObjectInfo, PropDesc, PropValue, Supported, PropList, Array16, Le32;
  }

  /** An announced object or thumbnail is in the catalogue. */
  lemma {:induction false} ObjectExists(session: Word, entries: Catalog, space: Space, c: Record, room: nat)
    ensures var a := Answer(session, entries, space, c, room);
            a.reply.Some? && (a.reply.value.phase.Object? || a.reply.value.phase.Thumb?) ==>
              Get(entries, a.reply.value.phase.handle).Some? && (a.reply.value.phase.Thumb? ==> c.code == 0x100a)
  {
    hide Children, ListableParent, DeviceInfo, StorageInfo, ObjectInfo, PropDesc, PropValue, Supported, PropList, Array16, Le32;
  }

  /** Data sets are never empty and never longer than the smallest scratch buffer. */
  lemma {:induction false} MemoryLength(session: Word, entries: Catalog, space: Space, c: Record, room: nat)
    ensures var a := Answer(session, entries, space, c, room);
            a.reply.Some? && a.reply.value.phase.Memory? ==> 0 < |a.payload| == a.reply.value.phase.length <= 4096
  {
    hide Children, ListableParent, DeviceInfo, StorageInfo, ObjectInfo, PropDesc, PropValue, Supported, PropList, Le32, Shorts;
  }

  /** A refusal is possible only for a thumbnail, or with a scratch buffer above the chunk limit. */
  predicate MayRefuse(p: Phase, room: nat) { p.Thumb? || room > MAX_CHUNK }

  lemma {:induction false} NothingStreamed(transaction: Word, total: nat)
    ensures Stream([], transaction, total, [])
  {
  }

  /** The data phase of an OK reply. */
  method SendPhase(server: Server, c: Record, reply: Reply, t: Adapter, scratch: array<byte>, thumbnail: array<byte>,
                   ghost a: Outcome)
    returns (sent: bool, ghost x: Exchange)
    requires a.reply == Some(reply) && reply.response.code == OK && 4096 <= scratch.Length && t.sent == 0
    requires reply.phase.Memory? ==>
               0 < |a.payload| == reply.phase.length <= 4096 && scratch[..reply.phase.length] == a.payload
    requires reply.phase.Handles? ==>
               reply.phase.length == 4 + 4 * |Matching(server.entries, reply.phase.parent, reply.phase.format)|
    requires reply.phase.Object? || reply.phase.Thumb? ==> Get(server.entries, reply.phase.handle).Some?
    modifies t, scratch, thumbnail
    ensures Carried(t, old(t.trace), x)
    ensures !reply.phase.Thumb? ==> x.total == Announced(reply.phase).value
    ensures x.response == if sent then reply.response else reply.response.(code := GENERAL_ERROR)
    ensures Stream(x.chunks, c.transaction, x.total, x.body) && Delivers(server.entries, a, x)
    ensures reply.phase.NoData? ==> x.chunks == [] && x.fetched.None?
    ensures (sent ==> t.failed == old(t.failed) && t.refused == old(t.refused)) && (!sent ==> t.failed || t.refused)
    ensures !MayRefuse(reply.phase, scratch.Length) ==> t.refused == old(t.refused)
    ensures reply.phase.Thumb? ==> t.refused == (old(t.refused) || x.total > MAX_CHUNK)
  {
    hide Matching, Get, HandleList, Stream;
    ghost var start := t.trace;
    NothingStreamed(c.transaction, if Announced(reply.phase).Some? then Announced(reply.phase).value else 0);
    ghost var began, chunks, body, total, handle := false, [], [], 0, 0;
    assert start + [] == start;
    sent := true;
    match reply.phase {
      case NoData =>
      case Memory(length) =>
        sent, chunks, body := SendChunk(c, t, scratch, length, 0, length, start, [], []);
        total := length;
      case Handles(length, parent, format) =>
        sent, chunks, body := SendHandles(server, c, length, parent, format, t, scratch, scratch.Length, start);
        total := length;
      case Object(length, h) =>
        sent, began, chunks, body := SendObject(server, c, length, h, t, scratch, scratch.Length, start);
        total, handle := length, h;
      case Thumb(h) =>
        var size := t.ReadThumb(Get(server.entries, h).value, thumbnail);
        sent := size > 0;
        total := size;
        NothingStreamed(c.transaction, size);
        if sent {
          sent, chunks, body := SendChunk(c, t, thumbnail, size, 0, size, start, [], []);
        }
    }
    ghost var code := if sent then OK else GENERAL_ERROR;
    x := Exchange(if began then Some(handle) else None, chunks, body, total, reply.response.(code := code), false);
    if began { ObjectCarried(t, start, x); }
  }

  /** One command: at most one data phase, then exactly one response. */
  method Run(server: Server, c: Record, t: Adapter, scratch: array<byte>, thumbnail: array<byte>)
    returns (ok: bool, ghost x: Exchange)
    requires scratch.Length < U32 && t.sent == 0
    modifies server`session, t, scratch, thumbnail
    ensures scratch.Length < 4096 ==> !ok && t.trace == old(t.trace) && server.session == old(server.session)
    ensures scratch.Length >= 4096 ==>
              var a := Answer(old(server.session), server.entries, server.space, c, scratch.Length);
              && t.trace == old(t.trace) + Events(x) && x.delivered == ok && server.session == a.session
              && Proper(old(server.session), server.entries, server.space, c, scratch.Length, x)
    ensures scratch.Length <= MAX_CHUNK ==>
              t.refused == (old(t.refused) || (scratch.Length >= 4096 && c.code == 0x100a && x.total > MAX_CHUNK))
  {
    hide Answer, Stream, Delivers, Events, Matching, Get;
    if scratch.Length < 4096 {
      x := Exchange(None, [], [], 0, c, false);
      return false, x;
    }
    ghost var session, start := server.session, t.trace;
    ghost var a := Answer(session, server.entries, server.space, c, scratch.Length);
    var executed := server.Execute(c, scratch, scratch.Length);
    ListingLength(session, server.entries, server.space, c, scratch.Length);
    ObjectExists(session, server.entries, server.space, c, scratch.Length);
    MemoryLength(session, server.entries, server.space, c, scratch.Length);
    AnswersEcho(session, server.entries, server.space, c, scratch.Length);
    if c.code == 0x100a { ThumbPhase(session, server.entries, server.space, c, scratch.Length); }
    var response;
    if executed.None? {
      response := c.(code := GENERAL_ERROR, paramCount := 0);
      x := Silent(response);
      SilentIsProper(t, start, server.entries, a, x, c.transaction);
    } else if executed.value.response.code == OK {
      var sent;
      sent, x := SendPhase(server, c, executed.value, t, scratch, thumbnail, a);
      response := if sent then executed.value.response else executed.value.response.(code := GENERAL_ERROR);
    } else {
      response := executed.value.response;
      x := Silent(response);
      SilentIsProper(t, start, server.entries, a, x, c.transaction);
    }
    ok := t.SendResponse(response);
    if a.reply.Some? { DeliveredEitherWay(server.entries, a, x, ok); }
    x := x.(delivered := ok);
    EventsOf(x, start);
  }

  lemma {:induction false} DeliveredEitherWay(entries: Catalog, a: Outcome, x: Exchange, ok: bool)
    requires a.reply.Some? && Delivers(entries, a, x)
    ensures Delivers(entries, a, x.(delivered := ok))
  {
    hide Content, Announced;
  }

  lemma {:induction false} EventsOf(x: Exchange, start: seq<Event>)
    ensures DataEvents(x) == DataEvents(x.(delivered := !x.delivered))
    ensures start + DataEvents(x) + [FinalEvent(x)] == start + Events(x)
  {
  }

  /** An exchange without data. */
  function Silent(response: Record): Exchange { Exchange(None, [], [], 0, response, false) }

  lemma {:induction false} SilentIsProper(t: Adapter, start: seq<Event>, entries: Catalog, a: Outcome, x: Exchange, transaction: Word)
    requires x == Silent(x.response) && t.trace == start
    requires a.reply.Some? ==> a.reply.value.phase.NoData?
    ensures Carried(t, start, x) && Stream(x.chunks, transaction, x.total, x.body)
    ensures a.reply.Some? ==> Delivers(entries, a, x)
  {
    assert start + [] == start;
  }

  // ---- every sequence of commands ----

  function SessionAfter(session: Word, entries: Catalog, space: Space, commands: seq<Record>, room: nat): Word {
    if commands == [] then session
    else
      var n := |commands| - 1;
      Answer(SessionAfter(session, entries, space, commands[..n], room), entries, space, commands[n], room).session
  }

  function Wire(xs: seq<Exchange>): seq<Event> {
    if xs == [] then [] else Wire(xs[..|xs| - 1]) + Events(xs[|xs| - 1])
  }

  ghost predicate History(session: Word, entries: Catalog, space: Space, commands: seq<Record>, room: nat,
                          xs: seq<Exchange>)
  {
    && |xs| == |commands|
    && forall i :: 0 <= i < |xs| ==>
         Proper(SessionAfter(session, entries, space, commands[..i], room), entries, space, commands[i], room, xs[i])
  }

  lemma {:induction false} HistoryStarts(session: Word, entries: Catalog, space: Space, room: nat)
    ensures History(session, entries, space, [], room, []) && Wire([]) == []
    ensures SessionAfter(session, entries, space, [], room) == session
  {
  }

  lemma {:induction false} HistoryGrows(session: Word, entries: Catalog, space: Space, commands: seq<Record>, i: nat, room: nat,
                     xs: seq<Exchange>, x: Exchange)
    requires i < |commands| && History(session, entries, space, commands[..i], room, xs)
    requires Proper(SessionAfter(session, entries, space, commands[..i], room), entries, space, commands[i], room, x)
    ensures History(session, entries, space, commands[..i + 1], room, xs + [x])
    ensures SessionAfter(session, entries, space, commands[..i + 1], room)
         == Answer(SessionAfter(session, entries, space, commands[..i], room), entries, space, commands[i], room).session
    ensures Wire(xs + [x]) == Wire(xs) + Events(x)
  {
    hide Proper, Answer, Events;
    var more := commands[..i + 1];
    assert more[..i] == commands[..i] && (xs + [x])[..|xs|] == xs;
    forall k | 0 <= k < i + 1
      ensures Proper(SessionAfter(session, entries, space, more[..k], room), entries, space, more[k], room, (xs + [x])[k])
    {
      assert more[..k] == commands[..i][..k] || k == i;
      if k < i { assert (xs + [x])[k] == xs[k] && more[k] == commands[..i][k]; }
    }
  }

  /** Some GetThumb met a bitmap above the chunk limit. */
  ghost predicate AnyLargeThumb(commands: seq<Record>, xs: seq<Exchange>) {
    |xs| == |commands| && exists i :: 0 <= i < |xs| && LargeThumb(commands[i], xs[i])
  }

  predicate LargeThumb(c: Record, x: Exchange) { c.code == 0x100a && x.total > MAX_CHUNK }

  lemma {:induction false} NoThumbs()
    ensures !AnyLargeThumb([], [])
  {
  }

  lemma {:induction false} LargeThumbGrows(commands: seq<Record>, xs: seq<Exchange>, c: Record, x: Exchange)
    requires |xs| == |commands|
    ensures AnyLargeThumb(commands + [c], xs + [x]) <==> AnyLargeThumb(commands, xs) || LargeThumb(c, x)
  {
    hide LargeThumb;
    var cs, ys := commands + [c], xs + [x];
    assert forall i :: 0 <= i < |xs| ==> cs[i] == commands[i] && ys[i] == xs[i];
    assert cs[|xs|] == c && ys[|xs|] == x;
    if AnyLargeThumb(commands, xs) {
      var i :| 0 <= i < |xs| && LargeThumb(commands[i], xs[i]);
      assert LargeThumb(cs[i], ys[i]);
    }
    if LargeThumb(c, x) { assert LargeThumb(cs[|xs|], ys[|xs|]); }
  }

  /** Serves the commands one after the other, each with a cleared transport context. */
  method Serve(server: Server, commands: seq<Record>, t: Adapter, scratch: array<byte>, thumbnail: array<byte>)
    returns (ghost xs: seq<Exchange>)
    requires 4096 <= scratch.Length < U32
    modifies server`session, t, scratch, thumbnail
    ensures History(old(server.session), server.entries, server.space, commands, scratch.Length, xs)
    ensures t.trace == old(t.trace) + Wire(xs)
    ensures server.session == SessionAfter(old(server.session), server.entries, server.space, commands, scratch.Length)
    ensures scratch.Length <= MAX_CHUNK ==> t.refused == (old(t.refused) || AnyLargeThumb(commands, xs))
  {
    hide Proper, Answer, Events, History, SessionAfter, Wire, AnyLargeThumb;
    ghost var session, entries, space, room := server.session, server.entries, server.space, scratch.Length;
    xs := [];
    assert commands[..0] == [] && t.trace + [] == t.trace;
    HistoryStarts(session, entries, space, room);
    NoThumbs();
    for i := 0 to |commands|
      invariant History(session, entries, space, commands[..i], room, xs)
      invariant t.trace == old(t.trace) + Wire(xs)
      invariant server.session == SessionAfter(session, entries, space, commands[..i], room)
      invariant room <= MAX_CHUNK ==> t.refused == (old(t.refused) || AnyLargeThumb(commands[..i], xs))
    {
      t.Clear();
      var _, x := Run(server, commands[i], t, scratch, thumbnail);
      HistoryLength(session, entries, space, commands[..i], room, xs);
      LargeThumbGrows(commands[..i], xs, commands[i], x);
      assert commands[..i + 1] == commands[..i] + [commands[i]];
      HistoryGrows(session, entries, space, commands, i, room, xs, x);
      assert old(t.trace) + Wire(xs) + Events(x) == old(t.trace) + (Wire(xs) + Events(x));
      xs := xs + [x];
    }
    assert commands[..|commands|] == commands;
  }

  // ---- what a history looks like on the wire ----

  /** The responses, with whether each was delivered. */
  function Responses(trace: seq<Event>): seq<Event> {
    if trace == [] then []
    else
      var last := trace[|trace| - 1];
      Responses(trace[..|trace| - 1]) + if last.Answered? then [last] else []
  }

  lemma {:induction false} ResponsesConcat(a: seq<Event>, b: seq<Event>)
    ensures Responses(a + b) == Responses(a) + Responses(b)
  {
    if b == [] {
      assert a + b == a;
    } else {
      var n := |b| - 1;
      ResponsesConcat(a, b[..n]);
      assert (a + b)[..|a + b| - 1] == a + b[..n];
    }
  }

  lemma {:induction false} StreamHasNoResponse(events: seq<Event>, transaction: Word, total: nat, body: Text)
    requires Stream(events, transaction, total, body)
    ensures Responses(events) == []
  {
    if events != [] {
      StreamHasNoResponse(events[..|events| - 1], transaction, total, body[..events[|events| - 1].offset]);
    }
  }

  lemma {:induction false} SingleResponse(e: Event)
    ensures Responses([e]) == if e.Answered? then [e] else []
  {
    assert [e][..0] == [];
  }

  lemma {:induction false} ExchangeHasOneResponse(x: Exchange, transaction: Word)
    requires Stream(x.chunks, transaction, x.total, x.body)
    ensures Responses(Events(x)) == [FinalEvent(x)]
  {
    StreamHasNoResponse(x.chunks, transaction, x.total, x.body);
    hide Responses, Stream;
    SingleResponse(FinalEvent(x));
    if x.fetched.Some? {
      var o := Opened(x.fetched.value);
      SingleResponse(o);
      SingleResponse(Closed);
      ResponsesConcat([o], x.chunks);
      ResponsesConcat([o] + x.chunks, [Closed]);
      ResponsesConcat([o] + x.chunks + [Closed], [FinalEvent(x)]);
    } else {
      ResponsesConcat(x.chunks, [FinalEvent(x)]);
    }
  }

  lemma {:induction false} HistoryPrefix(session: Word, entries: Catalog, space: Space, commands: seq<Record>, room: nat,
                      xs: seq<Exchange>)
    requires History(session, entries, space, commands, room, xs) && xs != []
    ensures var n := |xs| - 1;
            && History(session, entries, space, commands[..n], room, xs[..n])
            && Stream(xs[n].chunks, commands[n].transaction, xs[n].total, xs[n].body)
            && xs[n].response.transaction == commands[n].transaction
  {
    hide Answer, Responds, SessionAfter, Stream, Delivers;
    var n := |xs| - 1;
    assert Proper(SessionAfter(session, entries, space, commands[..n], room), entries, space, commands[n], room, xs[n]);
    hide Proper;
    forall i | 0 <= i < n
      ensures Proper(SessionAfter(session, entries, space, commands[..n][..i], room), entries, space, commands[..n][i], room, xs[..n][i])
    {
      assert commands[..n][..i] == commands[..i] && xs[..n][i] == xs[i];
    }
  }

  function Replies(xs: seq<Exchange>): (r: seq<Event>)
    ensures |r| == |xs| && forall i :: 0 <= i < |xs| ==> r[i] == Answered(xs[i].response, xs[i].delivered)
  {
    if xs == [] then [] else Replies(xs[..|xs| - 1]) + [FinalEvent(xs[|xs| - 1])]
  }

  /** Over every run one response is sent per command, the i-th for the i-th, and no others; each is delivered or not. */
  lemma {:induction false} OneResponsePerCommand(session: Word, entries: Catalog, space: Space, commands: seq<Record>,
                                                 room: nat, xs: seq<Exchange>)
    requires History(session, entries, space, commands, room, xs)
    ensures Responses(Wire(xs)) == Replies(xs) && |xs| == |commands|
    ensures forall i :: 0 <= i < |xs| ==> xs[i].response.transaction == commands[i].transaction
  {
    hide *;
    HistoryLength(session, entries, space, commands, room, xs);
    if xs != [] {
      var n := |xs| - 1;
      HistoryPrefix(session, entries, space, commands, room, xs);
      OneResponsePerCommand(session, entries, space, commands[..n], room, xs[..n]);
      ExchangeHasOneResponse(xs[n], commands[n].transaction);
      ResponsesConcat(Wire(xs[..n]), Events(xs[n]));
      WireStep(xs);
      forall i | 0 <= i < n ensures xs[i].response.transaction == commands[i].transaction {
        assert xs[..n][i] == xs[i] && commands[..n][i] == commands[i];
      }
    } else {
      NoResponses();
    }
  }

  lemma {:induction false} WireStep(xs: seq<Exchange>)
    requires xs != []
    ensures var n := |xs| - 1;
            && Wire(xs) == Wire(xs[..n]) + Events(xs[n]) && Replies(xs) == Replies(xs[..n]) + [FinalEvent(xs[n])]
  {
    hide Events;
  }

  lemma {:induction false} NoResponses()
    ensures Responses(Wire([])) == [] == Replies([])
  {
  }

  lemma {:induction false} HistoryLength(session: Word, entries: Catalog, space: Space, commands: seq<Record>, room: nat,
                      xs: seq<Exchange>)
    requires History(session, entries, space, commands, room, xs)
    ensures |xs| == |commands|
  {
    hide Proper, SessionAfter;
  }

  // ---- objects are closed ----

  /** Whether an object is open after the trace; None if events come out of place. */
  function OpenAfter(trace: seq<Event>): Option<bool> {
    if trace == [] then Some(false)
    else
      var n := |trace| - 1;
      var inside :- OpenAfter(trace[..n]);
      match trace[n]
      case Opened(_) => if inside then None else Some(true)
      case Closed => if inside then Some(false) else None
      case Answered(_, _) => if inside then None else Some(false)
      case Sent(_, _, _, _) => Some(inside)
  }

  lemma {:induction false} StreamKeepsOpen(before: seq<Event>, events: seq<Event>, transaction: Word, total: nat, body: Text)
    requires Stream(events, transaction, total, body)
    ensures OpenAfter(before + events) == OpenAfter(before)
  {
    if events == [] {
      assert before + events == before;
    } else {
      var n := |events| - 1;
      StreamKeepsOpen(before, events[..n], transaction, total, body[..events[n].offset]);
      assert (before + events)[..|before| + n] == before + events[..n];
    }
  }

  lemma {:induction false} OpenAfterStep(before: seq<Event>, e: Event)
    requires OpenAfter(before).Some? && !e.Sent? && (OpenAfter(before).value <==> e.Closed?)
    ensures OpenAfter(before + [e]) == Some(e.Opened?)
  {
    assert (before + [e])[..|before|] == before;
  }

  lemma {:induction false} ExchangeCloses(before: seq<Event>, x: Exchange, transaction: Word)
    requires Stream(x.chunks, transaction, x.total, x.body) && OpenAfter(before) == Some(false)
    ensures OpenAfter(before + Events(x)) == Some(false)
  {
    hide OpenAfter, Stream;
    var r := FinalEvent(x);
    if x.fetched.Some? {
      var o := Opened(x.fetched.value);
      OpenAfterStep(before, o);
      StreamKeepsOpen(before + [o], x.chunks, transaction, x.total, x.body);
      OpenAfterStep(before + [o] + x.chunks, Closed);
      OpenAfterStep(before + [o] + x.chunks + [Closed], r);
      assert before + Events(x) == before + [o] + x.chunks + [Closed] + [r];
    } else {
      StreamKeepsOpen(before, x.chunks, transaction, x.total, x.body);
      OpenAfterStep(before + x.chunks, r);
      assert before + Events(x) == before + x.chunks + [r];
    }
  }

  /** Over every run, each opened object is closed exactly once, before the response and before another one opens. */
  lemma {:induction false} ObjectsAreClosed(session: Word, entries: Catalog, space: Space, commands: seq<Record>,
                                            room: nat, xs: seq<Exchange>)
    requires History(session, entries, space, commands, room, xs)
    ensures OpenAfter(Wire(xs)) == Some(false)
  {
    if xs != [] {
      hide OpenAfter, Events, Stream;
      HistoryPrefix(session, entries, space, commands, room, xs);
      hide History;
      var n := |xs| - 1;
      ObjectsAreClosed(session, entries, space, commands[..n], room, xs[..n]);
      ExchangeCloses(Wire(xs[..n]), xs[n], commands[n].transaction);
    }
  }

  // ---- OK means the data arrived ----

  /** After an OK the chunks concatenate to exactly the data set of the command. */
  lemma {:induction false} DataArrives(session: Word, entries: Catalog, space: Space, c: Record, room: nat, x: Exchange)
    requires Proper(session, entries, space, c, room, x) && x.response.code == OK
    ensures var a := Answer(session, entries, space, c, room);
            && a.reply.Some? && a.reply.value.response.code == OK
            && |Payloads(x.chunks)| == x.total
            && (Announced(a.reply.value.phase).Some? ==> x.total == Announced(a.reply.value.phase).value)
            && (Content(entries, a).Some? ==> Payloads(x.chunks) == Content(entries, a).value)
  {
    StreamConcatenates(x.chunks, c.transaction, x.total, x.body);
    hide Answer, Payloads, Stream, Content;
  }

  /** An OK to GetObjectHandles: the host received the count and the matching handles in order. */
  lemma {:induction false} ListingArrives(session: Word, entries: Catalog, space: Space, c: Record, room: nat, x: Exchange)
    requires Proper(session, entries, space, c, room, x) && x.response.code == OK && c.code == 0x1007
    ensures Payloads(x.chunks) == HandleList(entries, c.p2, c.p1 % 0x1_0000)
  {
    hide Payloads, Proper, HandleList, Answer;
    DataArrives(session, entries, space, c, room, x);
    ListingPhase(session, entries, space, c, room);
  }

  lemma {:induction false} ListingAnswer(session: Word, entries: Catalog, c: Record)
    requires c.code == 0x1007
    ensures var a := AnswerListing(session, entries, c);
            a.reply.Some? && a.reply.value.response.code == OK ==>
              var p := a.reply.value.phase; p.Handles? && p.parent == c.p2 && p.format == c.p1 % 0x1_0000
  {
    hide Children, ListableParent;
  }

  lemma {:induction false} ListingPhase(session: Word, entries: Catalog, space: Space, c: Record, room: nat)
    requires c.code == 0x1007
    ensures var a := Answer(session, entries, space, c, room);
            a.reply.Some? && a.reply.value.response.code == OK ==>
              var p := a.reply.value.phase; p.Handles? && p.parent == c.p2 && p.format == c.p1 % 0x1_0000
  {
    hide AnswerListing, AnswerStorage, AnswerProperty, AnswerObject, DeviceInfo, InMemory;
    ListingAnswer(session, entries, c);
  }

  lemma {:induction false} InfoPhase(session: Word, entries: Catalog, space: Space, c: Record, room: nat)
    requires c.code == 0x1008
    ensures var a := Answer(session, entries, space, c, room);
            a.reply.Some? && a.reply.value.response.code == OK ==>
              && Get(entries, c.p0).Some? && Get(entries, c.p0).value.size < U32
              && a.reply.value.phase.Memory? && a.payload == ObjectInfo(Get(entries, c.p0).value)
  {
    hide ObjectInfo, Get, AnswerListing, AnswerStorage, AnswerProperty, DeviceInfo;
  }

  /** An OK to GetObjectInfo: the host received the ObjectInfo of the entry with that handle. */
  lemma {:induction false} ObjectInfoArrives(session: Word, entries: Catalog, space: Space, c: Record, room: nat, x: Exchange)
    requires Proper(session, entries, space, c, room, x) && x.response.code == OK && c.code == 0x1008
    ensures Get(entries, c.p0).Some? && Get(entries, c.p0).value.size < U32
    ensures Payloads(x.chunks) == ObjectInfo(Get(entries, c.p0).value)
  {
    hide Payloads, Proper, ObjectInfo, Get, Answer;
    DataArrives(session, entries, space, c, room, x);
    InfoPhase(session, entries, space, c, room);
  }

  /** An OK to GetThumb carries one chunk, so a bitmap above the chunk limit is never sent. */
  lemma {:induction false} ThumbnailsFitOneChunk(session: Word, entries: Catalog, space: Space, c: Record, room: nat, x: Exchange)
    requires Proper(session, entries, space, c, room, x) && x.response.code == OK && c.code == 0x100a
    ensures |Payloads(x.chunks)| == x.total <= MAX_CHUNK
  {
    DataArrives(session, entries, space, c, room, x);
    StreamConcatenates(x.chunks, c.transaction, x.total, x.body);
    ThumbPhase(session, entries, space, c, room);
    hide Answer;
    if x.chunks != [] {
      assert x.chunks[..|x.chunks| - 1] == [];
    }
  }

  /**
    So the adapter can send a photo's announced bitmap exactly if its padded rows take at most 65482
    bytes; for widths of whole blocks that is up to 21827 pixels. The library and the bridge admit
    256 by 256, which no command can ever deliver.
   */
  lemma {:induction false} SendableThumbnails(width: nat, height: nat)
    ensures Dxt1.AnnouncedSize(width, height) <= MAX_CHUNK <==> height * Dxt1.Stride(width) <= 65482
    ensures width % 4 == 0 ==> (Dxt1.AnnouncedSize(width, height) <= MAX_CHUNK <==> width * height <= 21827)
    ensures Dxt1.AnnouncedSize(256, 256) > MAX_CHUNK
  {
    if width % 4 == 0 {
      Dxt1.StrideOfBlocks(width);
      assert height * (3 * width) == 3 * (width * height);
    }
  }

  lemma {:induction false} ThumbPhase(session: Word, entries: Catalog, space: Space, c: Record, room: nat)
    requires c.code == 0x100a
    ensures var a := Answer(session, entries, space, c, room);
            a.reply.Some? && a.reply.value.response.code == OK ==> a.reply.value.phase.Thumb?
  {
    hide Get, AnswerListing, AnswerStorage, AnswerProperty, DeviceInfo;
  }

  /** Every byte of a data phase was sent in an open session, or answers GetDeviceInfo. */
  lemma {:induction false} DataNeedsSession(session: Word, entries: Catalog, space: Space, commands: seq<Record>, room: nat,
                         xs: seq<Exchange>, i: nat)
    requires History(session, entries, space, commands, room, xs) && i < |xs|
    requires xs[i].chunks != [] || xs[i].fetched.Some?
    ensures SessionAfter(session, entries, space, commands[..i], room) != 0 || commands[i].code == 0x1001
  {
    hide SessionAfter, Answer, Responds, Stream, Delivers;
    assert Proper(SessionAfter(session, entries, space, commands[..i], room), entries, space, commands[i], room, xs[i]);
  }

  /** Some OpenSession, and no CloseSession behind it. */
  ghost predicate LeftOpen(commands: seq<Record>) {
    exists i :: 0 <= i < |commands| && OpenedAt(commands, i)
  }

  ghost predicate OpenedAt(commands: seq<Record>, i: nat)
    requires i < |commands|
  {
    Opens(commands[i]) && forall k :: i < k < |commands| ==> !Closes(commands[k])
  }

  lemma {:induction false} LeftOpenStep(commands: seq<Record>)
    requires commands != []
    ensures var n := |commands| - 1;
            LeftOpen(commands) <==> Opens(commands[n]) || (LeftOpen(commands[..n]) && !Closes(commands[n]))
  {
    var n := |commands| - 1;
    var front := commands[..n];
    if LeftOpen(commands) {
      var i :| 0 <= i < |commands| && OpenedAt(commands, i);
      if i < n {
        assert OpenedAt(front, i);
      }
    }
    if Opens(commands[n]) {
      assert OpenedAt(commands, n);
    }
    if LeftOpen(front) && !Closes(commands[n]) {
      var i :| 0 <= i < n && OpenedAt(front, i);
      assert forall k :: i < k < n ==> front[k] == commands[k];
      assert OpenedAt(commands, i);
    }
  }

  /** A session is open after a run exactly if some OpenSession was not followed by a CloseSession. */
  lemma {:induction false} OpenSessionsHaveAnOpener(entries: Catalog, space: Space, commands: seq<Record>, room: nat)
    ensures SessionAfter(0, entries, space, commands, room) != 0 <==> LeftOpen(commands)
  {
    if commands != [] {
      var n := |commands| - 1;
      OpenSessionsHaveAnOpener(entries, space, commands[..n], room);
      var before := SessionAfter(0, entries, space, commands[..n], room);
      SessionsOpenAndClose(before, entries, space, commands[n], room);
      hide Answer, LeftOpen;
      LeftOpenStep(commands);
    }
  }

  predicate Opens(c: Record) { c.code == 0x1002 && c.paramCount == 1 && c.p0 != 0 }

  predicate Closes(c: Record) { c.code == 0x1003 && c.paramCount <= 5 }
}
