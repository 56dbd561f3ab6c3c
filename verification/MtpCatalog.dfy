/**
  The object catalogue of the MTP responder: src/vita/mtp_catalog.c. Handles are positions, so a
  catalogue is well formed when entry i carries handle i + 1.
 */
module MtpCatalog {
  import opened Bytes

  type Short = n: nat | n < 0x1_0000
  type Word = n: nat | n < 0x1_0000_0000
  type Quad = n: nat | n < 0x1_0000_0000_0000_0000

  const PHOTO: byte := 0
  const MUSIC: byte := 1
  const VIDEO: byte := 2
  const SIDECAR: byte := 3
  const FOLDER: byte := 4
  const ALL_HANDLES: Word := 0
  const ROOT_HANDLE: Word := 0xffff_ffff
  const NO_PARENT: Word := 0
  const FOLDER_FORMAT: Short := 0x3001

  /** The string a zero-terminated buffer holds, which is all of it if no zero stands in it. */
  function CString(buffer: Text): (s: Text)
    ensures |s| <= |buffer| && s == buffer[..|s|] && (|s| < |buffer| ==> buffer[|s|] == 0) && 0 !in s
  {
    if buffer == [] || buffer[0] == 0 then [] else [buffer[0]] + CString(buffer[1..])
  }

  /** Text fields are whole buffers, including what stands behind the terminator. */
  datatype Entry = Entry(nativeId: Quad, size: Quad, handle: Word, parent: Word, format: Short, kind: byte,
                         name: Text, displayName: Text, title: Text, artist: Text, album: Text,
                         created: Text, modified: Text,
                         thumbSize: Word, thumbWidth: Short, thumbHeight: Short, width: Word, height: Word)

  // ---- lookup ----

  function Get(entries: seq<Entry>, handle: Word): Option<Entry> {
    if handle == 0 || handle > |entries| then None
    else if entries[handle - 1].handle == handle then Some(entries[handle - 1])
    else None
  }

  predicate Numbered(entries: seq<Entry>) {
    |entries| < 0xffff_ffff && forall i :: 0 <= i < |entries| ==> entries[i].handle == i + 1
  }

  /** get(h) succeeds exactly for the handles 1..count, and yields the entry with that handle. */
  lemma {:induction false} GetSucceedsForHandles(entries: seq<Entry>, handle: Word)
    requires Numbered(entries)
    ensures Get(entries, handle).Some? <==> 1 <= handle <= |entries|
    ensures Get(entries, handle).Some? ==> Get(entries, handle).value.handle == handle && Get(entries, handle).value in entries
  {
  }

  // ---- listing ----

  predicate Listed(e: Entry, parent: Word, format: Short) {
    && (parent == ALL_HANDLES || e.parent == if parent == ROOT_HANDLE then NO_PARENT else parent)
    && (format == 0 || e.format == format)
  }

  /** The parents a listing accepts: everything, the root, or one of the three folders. */
  predicate ListableParent(entries: seq<Entry>, parent: Word) {
    parent == ROOT_HANDLE || parent == ALL_HANDLES || (Get(entries, parent).Some? && parent <= 3)
  }

  /** The handles that match, in catalogue order. */
  function Matching(entries: seq<Entry>, parent: Word, format: Short): (r: seq<Word>)
    ensures |r| <= |entries|
  {
    if entries == [] then []
    else
      var last := |entries| - 1;
      Matching(entries[..last], parent, format)
        + if Listed(entries[last], parent, format) then [entries[last].handle] else []
  }

  function Children(entries: seq<Entry>, parent: Word, format: Short): (r: seq<Word>)
    ensures |r| <= |entries|
  {
    if ListableParent(entries, parent) then Matching(entries, parent, format) else []
  }

  lemma {:induction false} MatchingStep(entries: seq<Entry>, i: nat, parent: Word, format: Short)
    requires i < |entries|
    ensures Matching(entries[..i + 1], parent, format)
         == Matching(entries[..i], parent, format) + if Listed(entries[i], parent, format) then [entries[i].handle] else []
  {
    assert entries[..i + 1][..i] == entries[..i];
  }

  lemma {:induction false} MatchingGrows(entries: seq<Entry>, i: nat, parent: Word, format: Short)
    requires i <= |entries|
    ensures |Matching(entries[..i], parent, format)| <= |Matching(entries, parent, format)|
    decreases |entries| - i
  {
    if i == |entries| {
      assert entries[..i] == entries;
    } else {
      MatchingStep(entries, i, parent, format);
      MatchingGrows(entries, i + 1, parent, format);
    }
  }

  /** The counting and filling loop: counts all matches, stores those that fit. */
  method ListChildren(entries: seq<Entry>, parent: Word, format: Short, out: array<Word>) returns (count: nat)
    modifies out
    ensures var all := Children(entries, parent, format);
            && count == |all|
            && (forall k :: 0 <= k < |all| && k < out.Length ==> out[k] == all[k])
            && (forall k :: |all| <= k < out.Length ==> out[k] == old(out[k]))
  {
    if !ListableParent(entries, parent) { return 0; }
    hide Listed, ListableParent;
    count := 0;
    assert entries[..0] == [];
    for i := 0 to |entries|
      invariant count == |Matching(entries[..i], parent, format)|
      invariant forall k :: 0 <= k < count && k < out.Length ==> out[k] == Matching(entries[..i], parent, format)[k]
      invariant forall k :: count <= k < out.Length ==> out[k] == old(out[k])
    {
      MatchingStep(entries, i, parent, format);
      var e := entries[i];
      if Listed(e, parent, format) {
        if count < out.Length { out[count] := e.handle; }
        count := count + 1;
      }
    }
    assert entries[..|entries|] == entries;
  }

  // ---- closure of a built catalogue ----

  /** What the folders and the entries added behind them have in common with their position. */
  predicate Placed(e: Entry, i: nat) {
    if i < 3 then e.parent == NO_PARENT && e.kind == FOLDER && e.format == FOLDER_FORMAT && e.size == 0
    else e.kind <= SIDECAR && e.parent == (if e.kind == PHOTO then 1 else if e.kind == MUSIC then 2 else 3)
  }

  predicate Shaped(entries: seq<Entry>) {
    && 3 <= |entries| && Numbered(entries)
    && forall i :: 0 <= i < |entries| ==> Placed(entries[i], i)
  }

  lemma {:induction false} AllListed(entries: seq<Entry>)
    requires Numbered(entries)
    ensures Matching(entries, ALL_HANDLES, 0) == seq(|entries|, i requires 0 <= i < |entries| => (i + 1) as Word)
  {
    if entries != [] {
      AllListed(entries[..|entries| - 1]);
    }
  }

  ghost function Split(entries: seq<Entry>, format: Short): multiset<Word> {
    multiset(Matching(entries, ROOT_HANDLE, format)) + multiset(Matching(entries, 1, format))
      + multiset(Matching(entries, 2, format)) + multiset(Matching(entries, 3, format))
  }

  /** An entry under the root or a folder is listed there and nowhere else. */
  lemma {:induction false} ListedOnce(e: Entry, format: Short)
    requires e.parent <= 3
    ensures Listed(e, ROOT_HANDLE, format) <==> Listed(e, ALL_HANDLES, format) && e.parent == 0
    ensures forall p: Word :: 1 <= p <= 3 ==> (Listed(e, p, format) <==> Listed(e, ALL_HANDLES, format) && e.parent == p)
  {
  }

  lemma {:induction false} MatchingSplits(entries: seq<Entry>, format: Short)
    requires forall i :: 0 <= i < |entries| ==> entries[i].parent <= 3
    ensures multiset(Matching(entries, ALL_HANDLES, format)) == Split(entries, format)
  {
    hide Listed;
    if entries != [] {
      var e := entries[|entries| - 1];
      MatchingSplits(entries[..|entries| - 1], format);
      ListedOnce(e, format);
      assert e.parent == 0 || e.parent == 1 || e.parent == 2 || e.parent == 3;
    }
  }

  /**
    All handles are 1..count, and for every format filter they are the disjoint union of the root's
    and the three folders' handles: as multisets the four lists add up to the whole.
   */
  lemma {:induction false} HandlesPartition(entries: seq<Entry>, format: Short)
    requires Shaped(entries)
    ensures Children(entries, ALL_HANDLES, 0) == seq(|entries|, i requires 0 <= i < |entries| => (i + 1) as Word)
    ensures multiset(Children(entries, ALL_HANDLES, format))
         == multiset(Children(entries, ROOT_HANDLE, format)) + multiset(Children(entries, 1, format))
          + multiset(Children(entries, 2, format)) + multiset(Children(entries, 3, format))
  {
    AllListed(entries);
    forall i | 0 <= i < |entries| ensures entries[i].parent <= 3 { assert Placed(entries[i], i); }
    MatchingSplits(entries, format);
    forall h: Word | 1 <= h <= 3 ensures ListableParent(entries, h) { }
  }

  /** Every listed handle can be looked up. */
  lemma {:induction false} ListedCanBeFetched(entries: seq<Entry>, parent: Word, format: Short, k: nat)
    requires Numbered(entries) && k < |Matching(entries, parent, format)|
    ensures 1 <= Matching(entries, parent, format)[k] <= |entries|
    ensures Get(entries, Matching(entries, parent, format)[k]).Some?
  {
    var front := entries[..|entries| - 1];
    if k < |Matching(front, parent, format)| {
      ListedCanBeFetched(front, parent, format, k);
    }
  }
}
