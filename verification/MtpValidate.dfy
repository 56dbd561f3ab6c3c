/**
  The bridge's check of a received catalogue (`validate` in src/usb/catalog_client.c), and that every
  catalogue the snapshot builds passes it.
 */
module MtpValidate {
  import opened Bytes
  import opened MtpCatalog
  import opened MtpSnapshot
  import MtpServer
  import Dxt1

  const MAGIC: Word := 0x434d_4356
  const VERSION: Word := 3
  const HEADER_SIZE: nat := 32
  const ENTRY_SIZE: nat := 1120

  datatype Header = Header(magic: Word, version: Word, count: Word, entrySize: Word, maxSize: Quad, freeSize: Quad)

  predicate HeaderOk(h: Header, length: nat) {
    && length >= HEADER_SIZE && h.magic == MAGIC && h.version == VERSION && h.entrySize == ENTRY_SIZE && h.count >= 3
    && h.count <= (length - HEADER_SIZE) / ENTRY_SIZE && length == HEADER_SIZE + h.count * ENTRY_SIZE
    && h.maxSize != 0 && h.freeSize <= h.maxSize
  }

  predicate PlacedOk(e: Entry, i: nat) {
    && e.handle == i + 1 && e.kind <= FOLDER
    && e.parent == (if i < 3 then NO_PARENT else if e.kind == PHOTO then 1 else if e.kind == MUSIC then 2 else 3)
    && (if i < 3 then e.kind == FOLDER else e.nativeId != 0 && e.kind != FOLDER)
  }

  predicate Visible(c: byte) { c >= 32 && c != 47 && c != 92 && c != 58 }

  /** A terminated, non-empty name without path or control characters. */
  predicate NameFieldOk(b: Text) {
    0 < |CString(b)| < |b| && forall i :: 0 <= i < |CString(b)| ==> Visible(CString(b)[i])
  }

  predicate DisplayFieldOk(b: Text) {
    0 < |CString(b)| < |b| && forall i :: 0 <= i < |CString(b)| ==> Plain(CString(b)[i])
  }

  predicate Terminated(b: Text) { |CString(b)| < |b| }

  predicate TextsOk(e: Entry) {
    Terminated(e.title) && Terminated(e.artist) && Terminated(e.album) && Terminated(e.created) && Terminated(e.modified)
  }

  predicate ThumbOk(e: Entry) {
    && e.thumbWidth <= 256 && e.thumbHeight <= 256
    && (e.thumbSize != 0 ==> e.kind == PHOTO && e.thumbSize == Dxt1.AnnouncedSize(e.thumbWidth, e.thumbHeight) % 0x1_0000_0000)
  }

  predicate EntryOk(e: Entry, i: nat) {
    PlacedOk(e, i) && NameFieldOk(e.name) && DisplayFieldOk(e.displayName) && TextsOk(e) && ThumbOk(e)
  }

  predicate Accepted(h: Header, length: nat, entries: seq<Entry>) {
    HeaderOk(h, length) && h.count == |entries| && forall i :: 0 <= i < |entries| ==> EntryOk(entries[i], i)
  }

  // ---- the loops ----

  /** Scans a field up to its terminator; `strict` also refuses the delete character. */
  method ScanField(b: Text, strict: bool) returns (ok: bool)
    ensures ok == if strict then DisplayFieldOk(b) else NameFieldOk(b)
  {
    var len := 0;
    ghost var s := CString(b);
    while len < |b| && b[len] != 0
      invariant 0 <= len <= |s| && s == b[..|s|]
      invariant forall i :: 0 <= i < len ==> if strict then Plain(s[i]) else Visible(s[i])
    {
      var c := b[len];
      InString(b, len);
      len := len + 1;
      if c < 32 || c == 47 || c == 92 || c == 58 || (strict && c == 127) { return false; }
    }
    EndOfString(b, len);
    ok := len != 0 && len != |b|;
  }

  lemma {:induction false} InString(b: Text, k: nat)
    requires k < |b| && k <= |CString(b)| && b[k] != 0
    ensures k < |CString(b)| && CString(b)[k] == b[k]
  {
  }

  lemma {:induction false} NoZeroInside(b: Text)
    ensures forall i :: 0 <= i < |CString(b)| ==> b[i] != 0 && CString(b)[i] == b[i]
  {
    forall i | 0 <= i < |CString(b)| ensures b[i] != 0 && CString(b)[i] == b[i] {
      assert CString(b)[i] in CString(b);
    }
  }

  lemma {:induction false} EndOfString(b: Text, k: nat)
    requires k <= |CString(b)| && (k == |b| || b[k] == 0)
    ensures k == |CString(b)|
  {
    NoZeroInside(b);
  }

  /** Accepts exactly the well-formed catalogues. */
  method Validate(h: Header, length: nat, entries: seq<Entry>) returns (ok: bool)
    requires h.count == |entries|
    ensures ok == Accepted(h, length, entries)
  {
    hide NameFieldOk, DisplayFieldOk, PlacedOk, TextsOk, ThumbOk, HeaderOk;
    if !HeaderOk(h, length) { return false; }
    for i := 0 to |entries|
      invariant forall k :: 0 <= k < i ==> EntryOk(entries[k], k)
    {
      var e := entries[i];
      if !PlacedOk(e, i) { return false; }
      var name := ScanField(e.name, false);
      if !name { return false; }
      var display := ScanField(e.displayName, true);
      if !display { return false; }
      if !TextsOk(e) || !ThumbOk(e) { return false; }
    }
    ok := true;
  }

  // ---- everything the snapshot builds is accepted ----

  function Build(capacity: nat, media: seq<Media>): Option<seq<Entry>> {
    if media == [] then Some(Folders())
    else
      var front :- Build(capacity, media[..|media| - 1]);
      Added(front, capacity, media[|media| - 1])
  }

  /** A record whose announced thumbnail the bridge tolerates. */
  predicate SmallThumb(m: Media) { m.size == 0 || (m.thumbWidth <= 256 && m.thumbHeight <= 256) }

  /** A tidy buffer is a proper display field. */
  lemma {:induction false} TidyIsOk(b: Text)
    requires Tidy(b)
    ensures DisplayFieldOk(b) && NameFieldOk(b)
  {
    var s := CString(b);
    NoZeroInside(b);
  }

  lemma {:induction false} BufferTerminated(s: CText, size: nat)
    requires size > 0
    ensures Terminated(Buffer(s, size)) && CString(Buffer(s, size)) == Kept(s, size)
  {
    KeptHasNoZero(s, size);
    hide Kept;
    StringOfBuffer(Kept(s, size), Zeros(size - |Kept(s, size)|));
  }

  lemma {:induction false} ZerosTerminated(n: nat)
    requires n > 0
    ensures Terminated(Zeros(n))
  {
  }

  lemma {:induction false} FolderOk(handle: Word, name: Text)
    requires 1 <= handle <= 3 && NameOk(name)
    ensures EntryOk(Folder(handle, name), handle - 1)
  {
    hide NameFieldOk, DisplayFieldOk, NameOk, NameBuffer, Terminated;
    assert |name| <= 240 by { NameSize(name); }
    NameBufferIsTidy(name);
    TidyIsOk(NameBuffer(name));
    ZerosTerminated(NAME_SIZE);
    ZerosTerminated(TEXT_SIZE);
    ZerosTerminated(DATE_SIZE);
  }

  lemma {:induction false} NameSize(name: Text)
    requires NameOk(name)
    ensures |name| <= 240 && forall i :: 0 <= i < |name| ==> Plain(name[i])
  {
  }

  lemma {:induction false} NewTexts(handle: Word, m: Media)
    requires 0 <= m.kind <= SIDECAR as int && NameOk(m.name)
    ensures TextsOk(NewEntry(handle, m))
  {
    hide NameOk, Terminated, Buffer, DisplayBuffer, NameBuffer, ThumbSize;
    BufferTerminated(m.title, NAME_SIZE);
    BufferTerminated(m.artist, TEXT_SIZE);
    BufferTerminated(m.album, TEXT_SIZE);
    BufferTerminated(m.created, DATE_SIZE);
    BufferTerminated(m.modified, DATE_SIZE);
  }

  lemma {:induction false} NewNames(handle: Word, m: Media)
    requires 0 <= m.kind <= SIDECAR as int && NameOk(m.name)
    ensures NameFieldOk(NewEntry(handle, m).name) && DisplayFieldOk(NewEntry(handle, m).displayName)
  {
    hide NameFieldOk, DisplayFieldOk, NameOk, DisplayBuffer, NameBuffer, Buffer, ThumbSize, Tidy;
    NameSize(m.name);
    NameBufferIsTidy(m.name);
    TidyIsOk(NameBuffer(m.name));
    DisplayIsTidy(NameBuffer(m.name), m.name, CString(Buffer(m.title, NAME_SIZE)), m.kind);
    TidyIsOk(NewEntry(handle, m).displayName);
  }

  /** A new entry is in order exactly if its thumbnail is not too large. */
  lemma {:induction false} NewEntryOk(handle: Word, m: Media)
    requires handle > 3 && CanAdd(handle - 1, handle, m)
    ensures EntryOk(NewEntry(handle, m), handle - 1) <==> SmallThumb(m)
  {
    hide NameFieldOk, DisplayFieldOk, NameOk, DisplayBuffer, NameBuffer, Buffer, TextsOk;
    NewTexts(handle, m);
    NewNames(handle, m);
  }

  /** A photo announces exactly the size of the bitmap that converting an image of its dimensions gives. */
  lemma {:induction false} AnnouncedThumbnail(handle: Word, m: Media)
    requires m.kind == 0 && NameOk(m.name) && 0 < m.thumbWidth <= 256 && 0 < m.thumbHeight <= 256
    ensures NewEntry(handle, m).thumbSize == Dxt1.AnnouncedSize(m.thumbWidth, m.thumbHeight)
  {
    hide NameOk, DisplayBuffer, NameBuffer, Buffer, Dxt1.Stride, Dxt1.Rows;
    Dxt1.SizeFits(m.thumbWidth, m.thumbHeight);
  }

  predicate AllOk(entries: seq<Entry>) {
    3 <= |entries| && forall i :: 0 <= i < |entries| ==> EntryOk(entries[i], i)
  }

  lemma {:induction false} FoldersOk()
    ensures AllOk(Folders())
  {
    hide EntryOk, Folder;
    FolderOk(1, [80, 104, 111, 116, 111]);
    FolderOk(2, [77, 117, 115, 105, 99]);
    FolderOk(3, [86, 105, 100, 101, 111]);
  }

  lemma {:induction false} AddedOk(entries: seq<Entry>, capacity: nat, m: Media)
    requires 3 <= |entries| && Added(entries, capacity, m).Some?
    ensures AllOk(Added(entries, capacity, m).value) <==> AllOk(entries) && SmallThumb(m)
    ensures 3 <= |Added(entries, capacity, m).value|
  {
    hide EntryOk, NewEntry, NameOk;
    if m.size != 0 {
      var n := |entries|;
      NewEntryOk(n + 1, m);
      var all := entries + [NewEntry(n + 1, m)];
      assert all[n] == NewEntry(n + 1, m) && forall i :: 0 <= i < n ==> all[i] == entries[i];
      if AllOk(all) {
        assert EntryOk(all[n], n);
        forall i | 0 <= i < n ensures EntryOk(entries[i], i) { assert EntryOk(all[i], i); }
      }
    }
  }

  lemma {:induction false} BuildOk(capacity: nat, media: seq<Media>)
    requires Build(capacity, media).Some?
    ensures 3 <= |Build(capacity, media).value|
    ensures AllOk(Build(capacity, media).value) <==> forall m :: m in media ==> SmallThumb(m)
  {
    hide AllOk, SmallThumb, Added;
    if media == [] {
      FoldersOk();
    } else {
      var front := media[..|media| - 1];
      BuildOk(capacity, front);
      AddedOk(Build(capacity, front).value, capacity, media[|media| - 1]);
      assert media == front + [media[|media| - 1]];
    }
  }

  lemma {:induction false} FailureIsFinal(capacity: nat, media: seq<Media>, i: nat)
    requires i <= |media| && Build(capacity, media[..i]).None?
    ensures Build(capacity, media).None?
    decreases |media| - i
  {
    if i < |media| {
      assert media[..i + 1][..i] == media[..i];
      FailureIsFinal(capacity, media, i + 1);
    } else {
      assert media[..i] == media;
    }
  }

  /** Adds the library's records one by one and gives up at the first failure. */
  method BuildSnapshot(capacity: nat, media: seq<Media>) returns (r: Option<seq<Entry>>)
    requires capacity >= 3
    ensures r == Build(capacity, media)
  {
    hide Added;
    var c := new Catalogue(capacity);
    assert media[..0] == [];
    for i := 0 to |media|
      invariant Build(capacity, media[..i]) == Some(c.entries)
    {
      assert media[..i + 1][..i] == media[..i];
      var ok := c.AddEntry(media[i]);
      if !ok {
        FailureIsFinal(capacity, media, i + 1);
        return None;
      }
    }
    assert media[..|media|] == media;
    r := Some(c.entries);
  }

  // ---- and has the shape the responder relies on ----

  predicate WellSized(e: Entry, i: nat) { e.size <= 0xffff_fff3 && (i >= 3 ==> e.size > 0) }

  predicate Served(entries: seq<Entry>) {
    Shaped(entries) && forall i :: 0 <= i < |entries| ==> WellSized(entries[i], i)
  }

  lemma {:induction false} AddedServed(entries: seq<Entry>, capacity: nat, m: Media)
    requires Served(entries) && Added(entries, capacity, m).Some?
    ensures Served(Added(entries, capacity, m).value)
  {
    hide DisplayBuffer, NameBuffer, Buffer, ThumbSize, NameOk;
    if m.size != 0 {
      var n := |entries|;
      var e := NewEntry(n + 1, m);
      assert Placed(e, n) && WellSized(e, n) && e.handle == n + 1;
      hide NewEntry, Placed, WellSized;
      var all := entries + [e];
      assert all[n] == e && forall i :: 0 <= i < n ==> all[i] == entries[i];
    }
  }

  /** Built catalogues are numbered by position, filed under their folder, and sized for a 32-bit transfer. */
  lemma {:induction false} BuiltIsServed(capacity: nat, media: seq<Media>)
    requires Build(capacity, media).Some?
    ensures Served(Build(capacity, media).value)
  {
    hide Served, Added;
    if media == [] {
      FoldersServed();
    } else {
      BuiltIsServed(capacity, media[..|media| - 1]);
      AddedServed(Build(capacity, media[..|media| - 1]).value, capacity, media[|media| - 1]);
    }
  }

  /** Whatever the library holds: every handle listed from the built catalogue is served consistently. */
  lemma {:induction false} BuiltObjectsAreConsistent(capacity: nat, media: seq<Media>, session: Word, space: MtpServer.Space,
                                  c: MtpServer.Record, room: nat, parent: Word, format: Short, k: nat)
    requires Build(capacity, media).Some? && session != 0 && room >= 4096 && 1 <= c.paramCount <= 5
    requires k < |Children(Build(capacity, media).value, parent, format)|
    requires c.p0 == Children(Build(capacity, media).value, parent, format)[k]
    ensures |Build(capacity, media).value| < U32
    ensures MtpServer.ObjectConsistent(session, Build(capacity, media).value, space, c, room)
  {
    BuiltIsServed(capacity, media);
    hide Build, Children, MtpServer.ObjectConsistent;
    var entries := Build(capacity, media).value;
    assert Numbered(entries);
    forall i | 0 <= i < |entries| ensures entries[i].size <= 0xffff_fff3 { assert WellSized(entries[i], i); }
    MtpServer.ListedObjectsAreConsistent(session, entries, space, c, room, parent, format, k);
  }

  lemma {:induction false} FoldersServed()
    ensures Served(Folders())
  {
    hide NameBuffer;
  }

  /**
    Every catalogue built by successful additions, sent with a truthful header, passes validation if and
    only if no library record announces a thumbnail above 256 pixels; the library never does.
   */
  lemma {:induction false} SnapshotsPassValidation(capacity: nat, media: seq<Media>, maxSize: Quad, freeSize: Quad)
    requires Build(capacity, media).Some? && |Build(capacity, media).value| < U32
    requires 0 < maxSize && freeSize <= maxSize
    ensures var entries := Build(capacity, media).value;
            var header := Header(MAGIC, VERSION, |entries|, ENTRY_SIZE, maxSize, freeSize);
            Accepted(header, HEADER_SIZE + |entries| * ENTRY_SIZE, entries) <==> forall m :: m in media ==> SmallThumb(m)
  {
    hide Build, EntryOk, SmallThumb;
    BuildOk(capacity, media);
  }

  // ---- what validation guarantees of any received catalogue ----

  /** A field that a host reads ends inside its buffer. */
  lemma {:induction false} TerminatedHasZero(b: Text)
    requires Terminated(b)
    ensures 0 in b
  {
    assert b[|CString(b)|] == 0;
  }

  lemma {:induction false} AcceptedEntry(h: Header, length: nat, entries: seq<Entry>, i: nat)
    requires Accepted(h, length, entries) && i < |entries|
    ensures entries[i].handle == i + 1 && entries[i].parent <= 3 && (entries[i].kind == FOLDER <==> i < 3)
    ensures 0 in entries[i].name && 0 in entries[i].displayName && 0 in entries[i].title && 0 in entries[i].artist
         && 0 in entries[i].album && 0 in entries[i].created && 0 in entries[i].modified
    ensures entries[i].thumbSize != 0 ==>
              entries[i].thumbSize == Dxt1.AnnouncedSize(entries[i].thumbWidth, entries[i].thumbHeight) <= 54 + 256 * 768
  {
    hide HeaderOk, CString, Visible, Plain, Dxt1.AnnouncedSize, Dxt1.Stride, Dxt1.Rows;
    var e := entries[i];
    assert EntryOk(e, i);
    TerminatedHasZero(e.name);
    TerminatedHasZero(e.displayName);
    TerminatedHasZero(e.title);
    TerminatedHasZero(e.artist);
    TerminatedHasZero(e.album);
    TerminatedHasZero(e.created);
    TerminatedHasZero(e.modified);
    SmallBitmap(e.thumbWidth, e.thumbHeight);
  }

  lemma {:induction false} SmallBitmap(w: nat, h: nat)
    ensures w <= 256 && h <= 256 ==> Dxt1.AnnouncedSize(w, h) <= 54 + 256 * 768
  {
    if w <= 256 && h <= 256 {
      assert Dxt1.Stride(w) <= 768;
      hide Dxt1.Stride;
      var s := Dxt1.Stride(w);
      assert h * s <= 256 * s;
    }
  }

  /**
    Whatever bytes were received, a catalogue that passes can be served: its handles are its positions, every
    text ends inside its buffer, every announced bitmap is that of its dimensions, and under every format the
    root and the three folders list each of its objects exactly once.
   */
  lemma {:induction false} ValidatedIsServed(h: Header, length: nat, entries: seq<Entry>, format: Short)
    requires length < U32 && Accepted(h, length, entries)
    ensures Numbered(entries) && h.freeSize <= h.maxSize
    ensures forall handle: Word :: Get(entries, handle).Some? <==> 1 <= handle <= |entries|
    ensures multiset(Children(entries, ALL_HANDLES, format))
         == multiset(Children(entries, ROOT_HANDLE, format)) + multiset(Children(entries, 1, format))
          + multiset(Children(entries, 2, format)) + multiset(Children(entries, 3, format))
  {
    assert |entries| < 0xffff_ffff && |entries| >= 3 && h.freeSize <= h.maxSize;
    hide Accepted, Matching, HeaderOk;
    forall i | 0 <= i < |entries| ensures entries[i].handle == i + 1 && entries[i].parent <= 3 {
      AcceptedEntry(h, length, entries, i);
    }
    MatchingSplits(entries, format);
    forall handle: Word ensures Get(entries, handle).Some? <==> 1 <= handle <= |entries| {
      GetSucceedsForHandles(entries, handle);
    }
    forall p: Word | 1 <= p <= 3 ensures ListableParent(entries, p) { }
  }
}
