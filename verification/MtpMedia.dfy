/** From the media library to the host: what a built entry carries, and what a host reads of it. */
module MtpMedia {
  import opened Bytes
  import opened Utf8
  import opened MtpCatalog
  import opened MtpString
  import opened MtpWire
  import opened MtpSnapshot
  import opened MtpInfo
  import Dxt1

  // ---- copied texts ----

  lemma {:induction false} WholeTail(s: Text, p: Text)
    requires p <= s && p != [] && Whole(p)
    ensures var n := LeadLength(s[0]); n > 0 && Continued(s, n) && n <= |p| && Whole(p[n..]) && p[n..] <= s[n..]
  {
    var n := LeadLength(p[0]);
    assert forall j :: 1 <= j < n ==> s[j] == p[j];
  }

  /** A text copied into a buffer keeps its longest prefix of whole sequences that leaves room for the terminator. */
  lemma {:induction false} KeptIsLongest(s: Text, room: nat, p: Text)
    requires room > 0 && p <= s && Whole(p) && |p| < room
    ensures Kept(s, room) <= s && Whole(Kept(s, room)) && p <= Kept(s, room)
  {
    KeptIsWhole(s, room);
    hide LeadLength, Continued;
    if p != [] {
      WholeTail(s, p);
      var n := LeadLength(s[0]);
      KeptIsLongest(s[n..], room - n, p[n..]);
    }
  }

  /** Well-formed UTF-8 that fits is copied whole. */
  lemma {:induction false} FittingIsKept(cs: seq<Scalar>, room: nat)
    requires |Encode(cs)| < room
    ensures Kept(Encode(cs), room) == Encode(cs)
  {
    EncodedIsWhole(cs);
    hide Whole, Kept, Encode;
    KeptIsLongest(Encode(cs), room, Encode(cs));
  }

  lemma {:induction false} BufferHolds(s: CText, size: nat)
    requires size > 0
    ensures CString(Buffer(s, size)) == Kept(s, size)
  {
    hide CString;
    var kept := Kept(s, size);
    assert forall i :: 0 <= i < |kept| ==> kept[i] == s[i] && kept[i] in s;
    StringOfBuffer(kept, Zeros(size - |kept|));
  }

  // ---- display names ----

  /** Only bytes that a host's file system forbids are replaced. */
  lemma {:induction false} SafeKeeps(c: byte)
    ensures Safe(c) == c <==> Plain(c) && c !in {60, 62, 34, 124, 63, 42}
    ensures Safe(c) == c || Safe(c) == 95
  {
  }

  /** Trimming takes exactly the trailing spaces and dots. */
  lemma {:induction false} TrimmedExactly(s: Text)
    ensures forall i :: Trimmed(s) <= i < |s| ==> s[i] == 32 || s[i] == 46
    ensures Trimmed(s) > 0 ==> s[Trimmed(s) - 1] != 32 && s[Trimmed(s) - 1] != 46
  {
    if s != [] && (s[|s| - 1] == 32 || s[|s| - 1] == 46) {
      TrimmedExactly(s[..|s| - 1]);
    }
  }

  /** Behind the last dot there is none. */
  lemma {:induction false} LastDotExactly(s: Text)
    ensures forall i :: LastDot(s) < i < |s| ==> s[i] != 46
    ensures LastDot(s) == |s| ==> 46 !in s
  {
    if s != [] && s[|s| - 1] != 46 {
      LastDotExactly(s[..|s| - 1]);
      assert s == s[..|s| - 1] + [s[|s| - 1]];
    }
  }

  // ---- entries ----

  function FolderOf(kind: int): Word { if kind == 0 then 1 else if kind == 1 then 2 else 3 }

  /** Every field of an entry is that of its media, texts as far as they fit their buffers. */
  lemma {:induction false} EntryCarries(handle: Word, m: Media)
    requires 0 <= m.kind <= SIDECAR as int && NameOk(m.name)
    ensures var e := NewEntry(handle, m);
            && e.nativeId == m.id && e.size == m.size && e.handle == handle && e.format == m.format && e.kind == m.kind
            && e.parent == FolderOf(m.kind)
            && CString(e.name) == m.name && CString(e.title) == Kept(m.title, 256)
            && CString(e.artist) == Kept(m.artist, 128) && CString(e.album) == Kept(m.album, 128)
            && CString(e.created) == Kept(m.created, 24) && CString(e.modified) == Kept(m.modified, 24)
            && e.width == m.width && e.height == m.height && e.thumbWidth == m.thumbWidth && e.thumbHeight == m.thumbHeight
  {
    hide Kept, Buffer, CString, NameBuffer, NameOk, DisplayBuffer;
    BufferHolds(m.title, NAME_SIZE);
    BufferHolds(m.artist, TEXT_SIZE);
    BufferHolds(m.album, TEXT_SIZE);
    BufferHolds(m.created, DATE_SIZE);
    BufferHolds(m.modified, DATE_SIZE);
    NameBufferIsTidy(m.name);
  }

  /** What an entry shows instead of its file name: its title, made safe, with the extension of the file. */
  lemma {:induction false} ShownName(handle: Word, m: Media)
    requires 0 <= m.kind <= SIDECAR as int && NameOk(m.name)
    ensures var e, title := NewEntry(handle, m), Kept(m.title, 256);
            var stem := Stem(title);
            && (!Renames(m.name, title, m.kind) ==> CString(e.displayName) == m.name)
            && (Renames(m.name, title, m.kind) && Trimmed(stem) != 0 ==>
                  CString(e.displayName) == stem[..Trimmed(stem)] + Extension(m.name, Trimmed(stem)))
  {
    BufferHolds(m.title, NAME_SIZE);
    NameBufferIsTidy(m.name);
    var title := Kept(m.title, 256);
    assert forall i :: 0 <= i < |m.name| ==> Plain(m.name[i]);
    hide Kept, Buffer, CString, NameBuffer, NameOk, Stem, Trimmed, Extension, Renames;
    assert NewEntry(handle, m).displayName == DisplayBuffer(NameBuffer(m.name), m.name, title, m.kind);
    if Renames(m.name, title, m.kind) && Trimmed(Stem(title)) != 0 {
      RenamedShows(NameBuffer(m.name), m.name, title, m.kind);
    }
  }

  // ---- the host ----

  /**
    A host that asks for a medium of the library reads its size, format and dimensions, the folder of its
    kind as its parent, no association, and its dates as far as they fit.
   */
  lemma {:induction false} HostSeesMedia(handle: Word, m: Media)
    requires 0 <= m.kind <= SIDECAR as int && NameOk(m.name) && 0 < m.size < U32 && m.format != FOLDER_FORMAT
    ensures var d := ObjectInfo(NewEntry(handle, m));
            && |d| >= 52
            && ReadHead(d) == Info(0x0001_0001, m.format, 1, m.size, if ThumbSize(m) != 0 then 0x3804 else 0, ThumbSize(m),
                                   m.thumbWidth, m.thumbHeight, m.width, m.height, 0, FolderOf(m.kind), 0, 0, 0)
            && ReadNames(d, 52).Some?
            && ReadNames(d, 52).value.created == CodePoints(Kept(m.created, 24), 254)
            && ReadNames(d, 52).value.modified == CodePoints(Kept(m.modified, 24), 254)
  {
    EntryCarries(handle, m);
    InfoReads(NewEntry(handle, m));
    hide ObjectInfo, ReadHead, ReadNames, CodePoints, Kept, NameOk, CString, Buffer, DisplayBuffer, NameBuffer;
  }
}
