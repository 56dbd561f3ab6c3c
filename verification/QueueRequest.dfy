/**
  A publication request from the received body to the shared queue: `vcm_queue_publish`
  (src/vita/sync_queue.c) and the size limit of its handler (src/vita/wifi_service.c).
 */
module QueueRequest {
  import opened Bytes
  import opened Strings
  import opened TransferQueue
  import opened QueueFormat
  import opened QueueParser
  import TransferRuns

  const BODY_SIZE: nat := 512 * 1024

  // ---- publishing ----

  /**
    Parses the body in place and, if it is valid, replaces the live queue. It returns -1 exactly for a
    body that does not parse, -2 exactly if the live queue is in use, and both leave the queue alone.
   */
  method PublishBody(q: SharedQueue, body: array<byte>, end: nat) returns (result: int)
    requires q.Valid() && end < body.Length && body[end] == 0 && 0 !in body[..end]
    modifies q, q.items, body
    ensures q.Valid() && q.View() == AfterRequest(old(q.View()), old(body[..end]))
    ensures result == -1 <==> Parse(old(body[..end])).None?
    ensures result == -2 <==> Parse(old(body[..end])).Some? && !PublishAccepted(old(q.View()))
    ensures result == 0 <==> Parse(old(body[..end])).Some? && PublishAccepted(old(q.View()))
    ensures result != 0 ==> q.View() == old(q.View())
    ensures result in {0, -1, -2}
  {
    hide Parse, PublishAccepted, AfterPublish;
    ghost var text := body[..end];
    var parsed := ParseInPlace(body, end);
    if parsed.None? { return -1; }
    AcceptedSize(text);
    var accepted := q.Publish(parsed.value.id, parsed.value.items, parsed.value.total);
    NotAcceptedIsUnchanged(old(q.View()), parsed.value);
    return if accepted then 0 else -2;
  }

  lemma {:induction false} AcceptedSize(body: Text)
    requires Parse(body).Some?
    ensures 1 <= |Parse(body).value.items| <= QUEUE_MAX
  {
    hide Parse;
    AcceptedIsValid(body);
  }

  lemma {:induction false} NotAcceptedIsUnchanged(q: Queue, p: Publication)
    ensures !PublishAccepted(q) ==> AfterPublish(q, p.id, p.items, p.total) == q
  {
  }

  // ---- the handler ----

  /** What a complete body is answered with. */
  function Status(q: Queue, content: Text): nat {
    if content == [] || |content| >= BODY_SIZE then 413
    else if 0 in content || Parse(content).None? then 400
    else if PublishAccepted(q) then 201 else 409
  }

  /** The handler from the received body on: the limit, the scan for zero bytes, and the publication. */
  method HandlePublish(q: SharedQueue, content: Text) returns (status: nat)
    requires q.Valid()
    modifies q, q.items
    ensures q.Valid() && status == Status(old(q.View()), content)
    ensures status == 413 <==> content == [] || |content| >= BODY_SIZE
    ensures status == 400 <==> 0 < |content| < BODY_SIZE && (0 in content || Parse(content).None?)
    ensures status == 409 <==>
              0 < |content| < BODY_SIZE && 0 !in content && Parse(content).Some? && !PublishAccepted(old(q.View()))
    ensures status in {201, 400, 409, 413}
    ensures q.View() == if status == 201 then AfterRequest(old(q.View()), content) else old(q.View())
  {
    hide Parse, PublishAccepted, AfterRequest;
    if content == [] || |content| >= BODY_SIZE { return 413; }
    var body := new byte[BODY_SIZE](i => if 0 <= i < |content| then content[i] else 0);
    assert body[..|content|] == content;
    for i := 0 to |content|
      invariant 0 !in content[..i]
    {
      if content[i] == 0 { return 400; }
      assert content[..i + 1] == content[..i] + [content[i]];
    }
    assert content[..|content|] == content;
    var result := PublishBody(q, body, |content|);
    return if result == 0 then 201 else if result == -2 then 409 else 400;
  }

  // ---- which publications fit ----

  /** The payload of a valid publication is ASCII without zero bytes, so only its length can get it refused. */
  lemma {:induction false} PayloadIsAcceptedExactlyWhenItFits(q: Queue, p: Publication)
    requires ValidPublication(p) && PublishAccepted(q)
    ensures Status(q, Payload(p.id, p.items)) == 201 <==> |Payload(p.id, p.items)| < BODY_SIZE
  {
    hide Parse, ValidPublication, PublishAccepted;
    PayloadRoundTrip(p);
    PayloadHasNoZero(p);
    assert Payload(p.id, p.items) != [];
  }

  lemma {:induction false} PayloadHasNoZero(p: Publication)
    requires ValidPublication(p)
    ensures 0 !in Payload(p.id, p.items)
  {
    LinesHaveNoZero(p.items);
    hide Lines;
    assert forall i :: 0 <= i < 32 ==> LowerHex(p.id[i]);
    assert 0 !in p.id;
  }

  lemma {:induction false} LinesHaveNoZero(items: seq<Metadata>)
    requires forall i :: 0 <= i < |items| ==> Valid(items[i])
    ensures 0 !in Lines(items)
  {
    if items != [] {
      hide Line, Valid;
      LinesHaveNoZero(items[1..]);
      LineHasNoZero(items[0]);
    }
  }

  lemma {:induction false} QuoteHasNoZero(s: Text)
    ensures 0 !in Quote(s)
  {
    if s != [] {
      QuoteHasNoZero(s[1..]);
    }
  }

  lemma {:induction false} LineHasNoZero(m: Metadata)
    ensures 0 !in Line(m)
  {
    hide Quote, Fields;
    var fields := QuoteAll(Fields(m));
    forall i | 0 <= i < |fields| ensures 0 !in fields[i] {
      QuoteHasNoZero(Fields(m)[i]);
    }
    FieldCount(m);
    JoinAvoids(fields, TAB, 0);
  }

  lemma {:induction false} FieldCount(m: Metadata)
    ensures |Fields(m)| == 16
  {
  }

  // ---- lengths ----

  function SumOf(parts: seq<Text>): nat {
    if parts == [] then 0 else |parts[0]| + SumOf(parts[1..])
  }

  lemma {:induction false} JoinLength(parts: seq<Text>, delimiter: byte)
    requires parts != []
    ensures |Join(parts, delimiter)| == SumOf(parts) + |parts| - 1
  {
    if |parts| == 1 {
      assert parts[1..] == [];
    } else {
      JoinLength(parts[1..], delimiter);
    }
  }

  lemma {:induction false} QuoteLength(s: Text)
    ensures |s| <= |Quote(s)| <= 3 * |s|
    ensures (forall i :: 0 <= i < |s| ==> Unreserved(s[i])) ==> |Quote(s)| == |s|
    ensures (forall i :: 0 <= i < |s| ==> !Unreserved(s[i])) ==> |Quote(s)| == 3 * |s|
  {
    hide Unreserved;
    if s != [] {
      QuoteLength(s[1..]);
      assert forall i :: 0 <= i < |s| - 1 ==> s[1..][i] == s[i + 1];
    }
  }

  function Pow10(k: nat): (p: nat)
    ensures p > 0
  {
    if k == 0 then 1 else 10 * Pow10(k - 1)
  }

  lemma {:induction false} DecimalLength(n: nat, k: nat)
    requires k > 0 && n < Pow10(k)
    ensures 1 <= |Decimal(n)| <= k && forall i :: 0 <= i < |Decimal(n)| ==> Unreserved(Decimal(n)[i])
  {
    if n >= 10 {
      assert k > 1;
      DecimalLength(n / 10, k - 1);
    }
  }

  lemma {:induction false} NumberLength(n: nat, k: nat)
    requires k > 0 && n < Pow10(k)
    ensures |Quote(Decimal(n))| <= k
  {
    hide Quote, Decimal;
    DecimalLength(n, k);
    QuoteLength(Decimal(n));
  }

  lemma {:induction false} SumOfSixteen(p: seq<Text>)
    requires |p| == 16
    ensures SumOf(p) == |p[0]| + |p[1]| + |p[2]| + |p[3]| + |p[4]| + |p[5]| + |p[6]| + |p[7]|
                      + |p[8]| + |p[9]| + |p[10]| + |p[11]| + |p[12]| + |p[13]| + |p[14]| + |p[15]|
  {
    SumOfEight(p[..8], p[8..]);
    SumOfEight(p[8..], []);
    assert p[..8] + p[8..] == p && p[8..] + [] == p[8..];
    assert SumOf([]) == 0;
    hide SumOf;
  }

  lemma {:induction false} SumOfEight(a: seq<Text>, rest: seq<Text>)
    requires |a| == 8
    ensures SumOf(a + rest) == |a[0]| + |a[1]| + |a[2]| + |a[3]| + |a[4]| + |a[5]| + |a[6]| + |a[7]| + SumOf(rest)
  {
    hide SumOf;
    SumStep(a, rest, 0);
    SumStep(a, rest, 1);
    SumStep(a, rest, 2);
    SumStep(a, rest, 3);
    SumStep(a, rest, 4);
    SumStep(a, rest, 5);
    SumStep(a, rest, 6);
    SumStep(a, rest, 7);
    assert (a + rest)[0..] == a + rest && (a + rest)[8..] == rest;
  }

  lemma {:induction false} SumStep(a: seq<Text>, rest: seq<Text>, i: nat)
    requires i < |a|
    ensures SumOf((a + rest)[i..]) == |a[i]| + SumOf((a + rest)[i + 1..])
  {
    var all := a + rest;
    assert all[i..][1..] == all[i + 1..] && all[i..][0] == a[i];
  }

  lemma {:induction false} LineIsSum(m: Metadata)
    ensures |Line(m)| == 15 + |Quote(m.id)| + |Quote(m.extension)| + |Quote(Decimal(m.size))| + |Quote(Decimal(m.subtitleSize))|
              + |Quote(Decimal(m.kind))| + |Quote(m.name)| + |Quote(m.title)| + |Quote(m.artist)| + |Quote(m.album)|
              + |Quote(m.albumArtist)| + |Quote(m.genre)| + |Quote(Decimal(m.durationMs))| + |Quote(Decimal(m.sampleRate))|
              + |Quote(Decimal(m.channels))| + |Quote(Decimal(m.track))| + |Quote(m.folder)|
  {
    hide Quote, Decimal, SumOf, Join;
    var f := QuoteAll(Fields(m));
    JoinLength(f, TAB);
    SumOfSixteen(f);
  }

  /** Every line and its newline take at most 5062 bytes. */
  const LONGEST_LINE: nat := 5062

  lemma {:induction false} ShortExtension(m: Metadata)
    requires Valid(m)
    ensures |Quote(m.extension)| <= 4 && |Quote(m.id)| == 32
  {
    ExtensionIsShort(m);
    assert forall i :: 0 <= i < 32 ==> LowerHex(m.id[i]) && Unreserved(m.id[i]);
    QuoteLength(m.extension);
    QuoteLength(m.id);
  }

  lemma {:induction false} ExtensionIsShort(m: Metadata)
    requires Valid(m)
    ensures |m.extension| <= 4 && forall i :: 0 <= i < |m.extension| ==> Unreserved(m.extension[i])
  {
    hide TextsFit, IdValid;
    assert m.kind == 0 || m.kind == 1 || m.kind == 2;
  }

  lemma {:induction false} TextLengths(m: Metadata)
    requires Valid(m)
    ensures |Quote(m.name)| <= 765 && |Quote(m.title)| <= 765 && |Quote(m.artist)| <= 765 && |Quote(m.album)| <= 765
    ensures |Quote(m.albumArtist)| <= 765 && |Quote(m.genre)| <= 381 && |Quote(m.folder)| <= 765
  {
    hide Quote, IdValid, Ranged;
    QuoteLength(m.name);
    QuoteLength(m.title);
    QuoteLength(m.artist);
    QuoteLength(m.album);
    QuoteLength(m.albumArtist);
    QuoteLength(m.genre);
    QuoteLength(m.folder);
  }

  lemma {:induction false} NumberLengths(m: Metadata)
    requires Valid(m)
    ensures |Quote(Decimal(m.size))| <= 10 && |Quote(Decimal(m.subtitleSize))| <= 8 && |Quote(Decimal(m.kind))| <= 1
    ensures |Quote(Decimal(m.durationMs))| <= 9 && |Quote(Decimal(m.sampleRate))| <= 5
    ensures |Quote(Decimal(m.channels))| <= 1 && |Quote(Decimal(m.track))| <= 5
  {
    Powers();
    hide Quote, Decimal, IdValid, TextsFit, Pow10;
    NumberLength(m.size, 10);
    NumberLength(m.subtitleSize, 8);
    NumberLength(m.kind, 1);
    NumberLength(m.durationMs, 9);
    NumberLength(m.sampleRate, 5);
    NumberLength(m.channels, 1);
    NumberLength(m.track, 5);
  }

  lemma {:induction false} Powers()
    ensures Pow10(1) == 10 && Pow10(5) == 100000 && Pow10(8) == 100000000 && Pow10(9) == 1000000000
    ensures Pow10(10) == 10000000000
  {
    assert Pow10(2) == 100 && Pow10(3) == 1000 && Pow10(4) == 10000 && Pow10(6) == 1000000 && Pow10(7) == 10000000;
  }

  lemma {:induction false} LineIsBounded(m: Metadata)
    requires Valid(m)
    ensures |Line(m)| + 1 <= LONGEST_LINE
  {
    hide Line, Quote, Decimal, Valid;
    LineIsSum(m);
    ShortExtension(m);
    TextLengths(m);
    NumberLengths(m);
  }

  lemma {:induction false} LinesAreBounded(items: seq<Metadata>)
    requires forall i :: 0 <= i < |items| ==> Valid(items[i])
    ensures |Lines(items)| <= LONGEST_LINE * |items|
  {
    if items != [] {
      hide Line, Valid;
      LinesAreBounded(items[1..]);
      LineIsBounded(items[0]);
    }
  }

  /** Up to 103 items are always small enough. */
  lemma {:induction false} SmallPublicationsFit(q: Queue, p: Publication)
    requires ValidPublication(p) && PublishAccepted(q) && |p.items| <= 103
    ensures Status(q, Payload(p.id, p.items)) == 201
  {
    hide Status, PublishAccepted, Lines;
    LinesAreBounded(p.items);
    PayloadIsAcceptedExactlyWhenItFits(q, p);
  }

  // ---- a valid publication that does not fit ----

  /** Thirty zeros and two hexadecimal digits. */
  function NumberedId(i: nat): (id: Text)
    requires i < 128
    ensures IdValid(id) && id[30] == 48 + i / 16 && id[31] == (if i % 16 < 10 then 48 + i % 16 else 87 + i % 16)
  {
    seq(30, _ => 48) + [48 + i / 16, if i % 16 < 10 then 48 + i % 16 else 87 + i % 16]
  }

  function Spaces(n: nat): (s: Text)
    ensures |s| == n && forall i :: 0 <= i < n ==> s[i] == 32
  {
    seq(n, _ => 32)
  }

  function WideItem(i: nat): (m: Metadata)
    requires i < 128
    ensures m.id == NumberedId(i)
  {
    Metadata(NumberedId(i), MP4, 1, 0, 2, Spaces(255), Spaces(255), Spaces(255), Spaces(255), Spaces(255), Spaces(127),
             0, 0, 0, 0, Spaces(255))
  }

  function WideItems(n: nat): (items: seq<Metadata>)
    requires n <= 128
    ensures |items| == n && forall i :: 0 <= i < n ==> items[i] == WideItem(i)
  {
    seq(n, i requires 0 <= i < n => WideItem(i))
  }

  lemma {:induction false} WideItemIsValid(i: nat)
    requires i < 128
    ensures Valid(WideItem(i))
  {
    hide IdValid;
  }

  lemma {:induction false} SpacesQuoted(n: nat)
    ensures |Quote(Spaces(n))| == 3 * n
  {
    QuoteLength(Spaces(n));
  }

  lemma {:induction false} WideLine(i: nat)
    requires i < 128
    ensures |Line(WideItem(i))| >= 4971
  {
    LineIsSum(WideItem(i));
    hide Line, Quote;
    SpacesQuoted(255);
    SpacesQuoted(127);
  }

  lemma {:induction false} WideLines(items: seq<Metadata>)
    requires forall i :: 0 <= i < |items| ==> |Line(items[i])| >= 4971
    ensures |Lines(items)| >= 4972 * |items|
  {
    if items != [] {
      hide Line;
      WideLines(items[1..]);
    }
  }

  lemma {:induction false} NumberedIdsDiffer(i: nat, j: nat)
    requires i < j < 128
    ensures NumberedId(i) != NumberedId(j)
  {
    assert NumberedId(i)[30] != NumberedId(j)[30] || NumberedId(i)[31] != NumberedId(j)[31];
  }

  lemma {:induction false} WideItemsAreValid()
    ensures forall i :: 0 <= i < 128 ==> Valid(WideItems(128)[i])
    ensures DistinctIds(WideItems(128))
  {
    hide Valid, WideItem, NumberedId;
    var items := WideItems(128);
    hide WideItems;
    forall i | 0 <= i < 128 ensures Valid(items[i]) {
      WideItemIsValid(i);
    }
    forall i, j | 0 <= i < j < 128 ensures items[i].id != items[j].id {
      NumberedIdsDiffer(i, j);
    }
  }

  lemma {:induction false} WideItemsAreLong()
    ensures |Lines(WideItems(128))| >= 4972 * 128
  {
    hide Line, WideItem, WideItems, Lines;
    forall i | 0 <= i < 128 ensures |Line(WideItems(128)[i])| >= 4971 {
      WideLine(i);
    }
    WideLines(WideItems(128));
  }

  /** 128 valid items with the longest texts print to more than the handler's buffer and are refused. */
  lemma {:induction false} LargePublicationIsRefused(q: Queue) returns (p: Publication)
    ensures ValidPublication(p) && |p.items| == 128 && Status(q, Payload(p.id, p.items)) == 413
  {
    hide Valid, Lines, WideItems, NumberedId, IdValid, DistinctIds, Parse;
    WideItemsAreValid();
    WideItemsAreLong();
    p := Publication(NumberedId(0), WideItems(128), TransferRuns.DeclaredTotal(WideItems(128)));
  }
}
