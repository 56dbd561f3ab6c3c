/**
  What a player finds in the patched header of `patch_moov` (src/desktop/subtitle_formats/build_vita_m4t.py):
  if the template's boxes are large enough for their fields, the edits miss every box header and each
  other, so that scanning the result leads to the same boxes and to what was written there.
 */
module M4tPatch {
  import opened Bytes
  import opened Boxes
  import opened SegmentIndex
  import opened M4tFile
  import opened M4tBuild

  // ---- edits and scans ----

  /** Equal but for the bytes from lo to hi. */
  predicate SameOutside(a: Text, b: Text, lo: nat, hi: nat) {
    |a| == |b| && forall i :: 0 <= i < |a| && !(lo <= i < hi) ==> a[i] == b[i]
  }

  /** An edit that touches no header from `start` on leaves the scan as it is. */
  lemma {:induction false} ScanApart(a: Text, b: Text, lo: nat, hi: nat, start: nat, end: nat)
    requires SameOutside(a, b, lo, hi) && end <= |a| && (hi <= start || end <= lo)
    ensures BoxesIn(a, start, end) == BoxesIn(b, start, end)
    decreases end - start
  {
    if start + 8 <= end {
      SameWord(a, b, start);
      var size := Read32(a, start);
      if size >= 8 && start + size <= end {
        ScanApart(a, b, lo, hi, start + size, end);
        assert a[start + 4..start + 8] == b[start + 4..start + 8];
      }
    }
  }

  lemma {:induction false} ScanFirst(a: Text, start: nat, end: nat)
    requires end <= |a| && BoxesIn(a, start, end).Some? && start < end
    ensures var size := Read32(a, start);
            && start + 8 <= end && size >= 8 && start + size <= end && BoxesIn(a, start + size, end).Some?
            && BoxesIn(a, start, end).value == [Entry(start, size, a[start + 4..start + 8])] + BoxesIn(a, start + size, end).value
            && forall e :: e in BoxesIn(a, start + size, end).value ==> start + size <= e.offset
  {
    ScannedInside(a, start + Read32(a, start), end);
  }

  /** Nor does an edit inside the payload of a scanned box. */
  lemma {:induction false} ScanAround(a: Text, b: Text, lo: nat, hi: nat, start: nat, end: nat, e: Entry)
    requires SameOutside(a, b, lo, hi) && end <= |a| && BoxesIn(a, start, end).Some?
    requires e in BoxesIn(a, start, end).value && e.offset + 8 <= lo && hi <= e.offset + e.size
    ensures BoxesIn(b, start, end) == BoxesIn(a, start, end)
    decreases end - start
  {
    hide BoxesIn, SameOutside, Read32;
    if start >= end {
      ScanNothing(a, start, end);
    } else {
      ScanFirst(a, start, end);
      var size := Read32(a, start);
      var rest := BoxesIn(a, start + size, end).value;
      if e in rest {
        ScanAround(a, b, lo, hi, start + size, end, e);
      } else {
        ScanApart(a, b, lo, hi, start + size, end);
      }
      SameHeader(a, b, lo, hi, start);
      ScanStep(b, start, end, size, rest);
    }
  }

  lemma {:induction false} ScanNothing(a: Text, start: nat, end: nat)
    requires end <= |a| && start >= end
    ensures BoxesIn(a, start, end) == Some([])
  {
  }

  lemma {:induction false} ScanStep(b: Text, start: nat, end: nat, size: nat, rest: seq<Entry>)
    requires start + 8 <= end <= |b| && Read32(b, start) == size >= 8 && start + size <= end
    requires BoxesIn(b, start + size, end) == Some(rest)
    ensures BoxesIn(b, start, end) == Some([Entry(start, size, b[start + 4..start + 8])] + rest)
  {
    hide Read32;
  }

  lemma {:induction false} SameHeader(a: Text, b: Text, lo: nat, hi: nat, at: nat)
    requires SameOutside(a, b, lo, hi) && at + 8 <= |a| && at + 8 <= lo
    ensures |a| == |b| && Read32(a, at) == Read32(b, at) && a[at + 4..at + 8] == b[at + 4..at + 8]
  {
    SameWord(a, b, at);
  }

  predicate Apart(a: Entry, b: Entry) { a.offset + a.size <= b.offset || b.offset + b.size <= a.offset }

  lemma {:induction false} EntriesApart(data: Text, start: nat, end: nat, a: Entry, b: Entry)
    requires end <= |data| && BoxesIn(data, start, end).Some?
    requires a in BoxesIn(data, start, end).value && b in BoxesIn(data, start, end).value && a != b
    ensures Apart(a, b)
    decreases end - start
  {
    hide BoxesIn, Read32;
    if start >= end {
      ScanNothing(data, start, end);
    } else {
      ScanFirst(data, start, end);
      var size := Read32(data, start);
      var first := Entry(start, size, data[start + 4..start + 8]);
      if a != first && b != first {
        EntriesApart(data, start + size, end, a, b);
      }
    }
  }

  lemma {:induction false} OneBoxIn(data: Text, name: Name, start: nat, end: nat)
    requires end <= |data| && OneBox(data, name, start, end).Some?
    ensures BoxesIn(data, start, end).Some? && OneBox(data, name, start, end).value in BoxesIn(data, start, end).value
    ensures var e := OneBox(data, name, start, end).value;
            e.name == name && start <= e.offset && 8 <= e.size && e.offset + e.size <= end
  {
    hide BoxesIn;
    var found := Named(BoxesIn(data, start, end).value, name);
    assert found[0] in found;
  }

  /** Which box is the one of a name depends only on the scan. */
  lemma {:induction false} OneBoxSame(a: Text, b: Text, name: Name, start: nat, end: nat)
    requires end <= |a| && |a| == |b| && BoxesIn(a, start, end) == BoxesIn(b, start, end)
    ensures OneBox(a, name, start, end) == OneBox(b, name, start, end)
  {
    hide BoxesIn;
  }

  // ---- the boxes that are edited ----

  datatype Layout = Layout(mvhd: Entry, trak: Entry, tkhd: Entry, mdia: Entry, mdhd: Entry, mvex: Entry, mehd: Entry)

  /** The source finds these boxes. */
  predicate Lays(moov: Text, l: Layout) {
    && l.trak.offset + l.trak.size <= |moov| && l.mdia.offset + l.mdia.size <= |moov| && l.mvex.offset + l.mvex.size <= |moov|
    && OneBox(moov, MVHD, 8, |moov|) == Some(l.mvhd) && OneBox(moov, TRAK, 8, |moov|) == Some(l.trak)
    && OneBox(moov, MVEX, 8, |moov|) == Some(l.mvex)
    && OneBox(moov, TKHD, l.trak.offset + 8, l.trak.offset + l.trak.size) == Some(l.tkhd)
    && OneBox(moov, MDIA, l.trak.offset + 8, l.trak.offset + l.trak.size) == Some(l.mdia)
    && OneBox(moov, MDHD, l.mdia.offset + 8, l.mdia.offset + l.mdia.size) == Some(l.mdhd)
    && OneBox(moov, MEHD, l.mvex.offset + 8, l.mvex.offset + l.mvex.size) == Some(l.mehd)
  }

  predicate In(e: Entry, lo: nat, hi: nat) { e.offset + 8 <= lo && hi <= e.offset + e.size }

  /** The edit lies inside the payload of one of the four edited boxes. */
  predicate Leaf(l: Layout, lo: nat, hi: nat) {
    In(l.mvhd, lo, hi) || In(l.tkhd, lo, hi) || In(l.mdhd, lo, hi) || In(l.mehd, lo, hi)
  }

  /** How the boxes lie to each other. */
  predicate Nested(l: Layout) {
    && In(l.trak, l.tkhd.offset, l.tkhd.offset + l.tkhd.size) && In(l.trak, l.mdia.offset, l.mdia.offset + l.mdia.size)
    && In(l.mdia, l.mdhd.offset, l.mdhd.offset + l.mdhd.size) && In(l.mvex, l.mehd.offset, l.mehd.offset + l.mehd.size)
    && Apart(l.mvhd, l.trak) && Apart(l.mvhd, l.mvex) && Apart(l.trak, l.mvex) && Apart(l.tkhd, l.mdia)
  }

  lemma {:induction false} NamesDiffer()
    ensures MVHD != TRAK && MVHD != MVEX && TRAK != MVEX && TKHD != MDIA
  {
    assert MVHD[0] != TRAK[0] && MVHD[2] != MVEX[2] && TRAK[0] != MVEX[0] && TKHD[0] != MDIA[0];
  }

  lemma {:induction false} BoxesNest(moov: Text, l: Layout)
    requires Lays(moov, l)
    ensures Nested(l)
  {
    hide OneBox, BoxesIn, Inside;
    NamesDiffer();
    OneBoxIn(moov, MVHD, 8, |moov|);
    OneBoxIn(moov, TRAK, 8, |moov|);
    OneBoxIn(moov, MVEX, 8, |moov|);
    EntriesApart(moov, 8, |moov|, l.mvhd, l.trak);
    EntriesApart(moov, 8, |moov|, l.mvhd, l.mvex);
    EntriesApart(moov, 8, |moov|, l.trak, l.mvex);
    OneBoxIn(moov, TKHD, l.trak.offset + 8, l.trak.offset + l.trak.size);
    OneBoxIn(moov, MDIA, l.trak.offset + 8, l.trak.offset + l.trak.size);
    EntriesApart(moov, l.trak.offset + 8, l.trak.offset + l.trak.size, l.tkhd, l.mdia);
    OneBoxIn(moov, MDHD, l.mdia.offset + 8, l.mdia.offset + l.mdia.size);
    OneBoxIn(moov, MEHD, l.mvex.offset + 8, l.mvex.offset + l.mvex.size);
  }

  /** The scan of a box's payload. */
  predicate SameInside(a: Text, b: Text, e: Entry) {
    && |a| == |b| && e.offset + e.size <= |a|
    && BoxesIn(a, e.offset + 8, e.offset + e.size) == BoxesIn(b, e.offset + 8, e.offset + e.size)
  }

  predicate SameTop(a: Text, b: Text) { |a| == |b| && BoxesIn(a, 8, |a|) == BoxesIn(b, 8, |b|) }

  /** The scan of the whole box: the edit lies in the header box, in the track or in the extension box. */
  lemma {:induction false} TopKept(a: Text, b: Text, l: Layout, lo: nat, hi: nat)
    requires Lays(a, l) && SameOutside(a, b, lo, hi) && (In(l.mvhd, lo, hi) || In(l.trak, lo, hi) || In(l.mvex, lo, hi))
    ensures SameTop(a, b)
  {
    hide OneBox, BoxesIn, SameOutside, Inside;
    SameLengths(a, b, lo, hi);
    OneBoxIn(a, MVHD, 8, |a|);
    OneBoxIn(a, TRAK, 8, |a|);
    OneBoxIn(a, MVEX, 8, |a|);
    ScanAround(a, b, lo, hi, 8, |a|, if In(l.mvhd, lo, hi) then l.mvhd else if In(l.trak, lo, hi) then l.trak else l.mvex);
  }

  /** A box that the edit misses. */
  lemma {:induction false} MissedKept(a: Text, b: Text, lo: nat, hi: nat, e: Entry)
    requires SameOutside(a, b, lo, hi) && e.offset + e.size <= |a| && (hi <= e.offset || e.offset + e.size <= lo)
    ensures SameInside(a, b, e)
  {
    hide BoxesIn, SameOutside;
    SameLengths(a, b, lo, hi);
    ScanApart(a, b, lo, hi, e.offset + 8, e.offset + e.size);
  }

  /** A box in which the edit lies inside a box that is found there. */
  lemma {:induction false} AroundKept(a: Text, b: Text, lo: nat, hi: nat, e: Entry, name: Name, f: Entry)
    requires SameOutside(a, b, lo, hi) && e.offset + e.size <= |a| && In(f, lo, hi)
    requires OneBox(a, name, e.offset + 8, e.offset + e.size) == Some(f)
    ensures SameInside(a, b, e)
  {
    hide OneBox, BoxesIn, SameOutside, Inside;
    SameLengths(a, b, lo, hi);
    OneBoxIn(a, name, e.offset + 8, e.offset + e.size);
    ScanAround(a, b, lo, hi, e.offset + 8, e.offset + e.size, f);
  }

  lemma {:induction false} SameLengths(a: Text, b: Text, lo: nat, hi: nat)
    requires SameOutside(a, b, lo, hi)
    ensures |a| == |b|
  {
  }

  /** Scans decide which boxes are found. */
  lemma {:induction false} SameScansSameLayout(a: Text, b: Text, l: Layout)
    requires Lays(a, l) && SameTop(a, b) && SameInside(a, b, l.trak) && SameInside(a, b, l.mdia) && SameInside(a, b, l.mvex)
    ensures Lays(b, l)
  {
    hide OneBox, BoxesIn, Inside;
    OneBoxSame(a, b, MVHD, 8, |a|);
    OneBoxSame(a, b, TRAK, 8, |a|);
    OneBoxSame(a, b, MVEX, 8, |a|);
    OneBoxSame(a, b, TKHD, l.trak.offset + 8, l.trak.offset + l.trak.size);
    OneBoxSame(a, b, MDIA, l.trak.offset + 8, l.trak.offset + l.trak.size);
    OneBoxSame(a, b, MDHD, l.mdia.offset + 8, l.mdia.offset + l.mdia.size);
    OneBoxSame(a, b, MEHD, l.mvex.offset + 8, l.mvex.offset + l.mvex.size);
  }

  lemma {:induction false} LayoutKept(a: Text, b: Text, l: Layout, lo: nat, hi: nat)
    requires Lays(a, l) && SameOutside(a, b, lo, hi) && lo <= hi && Leaf(l, lo, hi)
    ensures Lays(b, l)
  {
    hide OneBox, SameOutside, SameTop, SameInside, Inside;
    BoxesNest(a, l);
    TopKept(a, b, l, lo, hi);
    if In(l.tkhd, lo, hi) {
      AroundKept(a, b, lo, hi, l.trak, TKHD, l.tkhd);
    } else if In(l.mdhd, lo, hi) {
      AroundKept(a, b, lo, hi, l.trak, MDIA, l.mdia);
    } else {
      MissedKept(a, b, lo, hi, l.trak);
    }
    if In(l.mdhd, lo, hi) { AroundKept(a, b, lo, hi, l.mdia, MDHD, l.mdhd); } else { MissedKept(a, b, lo, hi, l.mdia); }
    if In(l.mehd, lo, hi) { AroundKept(a, b, lo, hi, l.mvex, MEHD, l.mehd); } else { MissedKept(a, b, lo, hi, l.mvex); }
    SameScansSameLayout(a, b, l);
  }

  /** An edit inside an edited box leaves all boxes where they are. */
  lemma {:induction false} PutKeepsLayout(a: Text, l: Layout, at: nat, bytes: Text)
    requires Lays(a, l) && Put(a, at, bytes).Some? && Leaf(l, at, at + |bytes|)
    ensures var b := Put(a, at, bytes).value; Lays(b, l) && SameOutside(a, b, at, at + |bytes|) && At(b, at, bytes)
  {
    hide Lays, Put, Leaf, At, SameOutside;
    PutOutside(a, at, bytes);
    LayoutKept(a, Put(a, at, bytes).value, l, at, at + |bytes|);
  }

  lemma {:induction false} PutOutside(a: Text, at: nat, bytes: Text)
    requires Put(a, at, bytes).Some?
    ensures var b := Put(a, at, bytes).value; SameOutside(a, b, at, at + |bytes|) && At(b, at, bytes)
  {
    PutAt(a, at, bytes);
  }

  lemma {:induction false} AtKept(a: Text, b: Text, lo: nat, hi: nat, at: nat, piece: Text)
    requires SameOutside(a, b, lo, hi) && At(a, at, piece) && (hi <= at || at + |piece| <= lo)
    ensures At(b, at, piece)
  {
    assert a[at..at + |piece|] == b[at..at + |piece|];
  }

  // ---- the six edits ----

  datatype Edit = Edit(at: nat, bytes: Text)

  function PutAll(moov: Text, edits: seq<Edit>): Option<Text> {
    if edits == [] then Some(moov)
    else
      var n := |edits| - 1;
      var before :- PutAll(moov, edits[..n]);
      Put(before, edits[n].at, edits[n].bytes)
  }

  predicate Missing(a: Edit, b: Edit) { a.at + |a.bytes| <= b.at || b.at + |b.bytes| <= a.at }

  predicate AllMissing(edits: seq<Edit>) {
    forall i, j :: 0 <= i < j < |edits| ==> Missing(edits[i], edits[j])
  }

  predicate AllLeaf(l: Layout, edits: seq<Edit>) {
    forall i :: 0 <= i < |edits| ==> Leaf(l, edits[i].at, edits[i].at + |edits[i].bytes|)
  }

  predicate AllAt(moov: Text, edits: seq<Edit>) {
    forall i :: 0 <= i < |edits| ==> At(moov, edits[i].at, edits[i].bytes)
  }

  /** Edits inside the edited boxes that miss each other fit, all stand at the end, and leave the boxes where they are. */
  lemma {:induction false} EditsStand(moov: Text, l: Layout, edits: seq<Edit>)
    requires Lays(moov, l) && AllLeaf(l, edits) && AllMissing(edits)
    ensures PutAll(moov, edits).Some? && Lays(PutAll(moov, edits).value, l) && AllAt(PutAll(moov, edits).value, edits)
  {
    hide Lays, Put, At;
    if edits != [] {
      var n := |edits| - 1;
      EditsStand(moov, l, edits[..n]);
      var before, e := PutAll(moov, edits[..n]).value, edits[n];
      LeafFits(before, l, e);
      PutKeepsLayout(before, l, e.at, e.bytes);
      var after := Put(before, e.at, e.bytes).value;
      forall i | 0 <= i < |edits| ensures At(after, edits[i].at, edits[i].bytes) {
        if i < n {
          assert edits[..n][i] == edits[i] && Missing(edits[i], e);
          AtKept(before, after, e.at, e.at + |e.bytes|, edits[i].at, edits[i].bytes);
        }
      }
    }
  }

  lemma {:induction false} LeafFits(moov: Text, l: Layout, e: Edit)
    requires Lays(moov, l) && Leaf(l, e.at, e.at + |e.bytes|)
    ensures Put(moov, e.at, e.bytes).Some?
  {
    hide OneBox, BoxesIn, Inside;
    OneBoxIn(moov, MVHD, 8, |moov|);
    OneBoxIn(moov, TKHD, l.trak.offset + 8, l.trak.offset + l.trak.size);
    OneBoxIn(moov, MDHD, l.mdia.offset + 8, l.mdia.offset + l.mdia.size);
    OneBoxIn(moov, MEHD, l.mvex.offset + 8, l.mvex.offset + l.mvex.size);
  }

  /** The boxes are large enough for the fields that are written into them. */
  predicate Roomy(l: Layout) { l.mvhd.size >= 20 && l.tkhd.size >= 28 && l.mdhd.size >= 30 && l.mehd.size >= 20 }

  function HeaderEdits(l: Layout): seq<Edit> { [Edit(l.mvhd.offset + 12, ZERO8)] }

  function SizeEdits(l: Layout, width: nat, height: nat): seq<Edit>
    requires Roomy(l) && width < U16 && height < U16
  {
    [Edit(l.tkhd.offset + 12, ZERO8), Edit(l.tkhd.offset + l.tkhd.size - 8, Be32(width * U16) + Be32(height * U16))]
  }

  function MediaEdits(l: Layout, packed: nat): seq<Edit>
    requires packed < U16
  {
    [Edit(l.mdhd.offset + 12, ZERO8), Edit(l.mdhd.offset + 28, Be16(packed))]
  }

  function DurationEdits(l: Layout, ticks: nat): seq<Edit>
    requires ticks < U64
  {
    [Edit(l.mehd.offset + 12, Be64(ticks))]
  }

  function Edits(l: Layout, width: nat, height: nat, packed: nat, ticks: nat): seq<Edit>
    requires Roomy(l) && width < U16 && height < U16 && packed < U16 && ticks < U64
  {
    HeaderEdits(l) + SizeEdits(l, width, height) + MediaEdits(l, packed) + DurationEdits(l, ticks)
  }

  lemma {:induction false} EditsMiss(l: Layout, width: nat, height: nat, packed: nat, ticks: nat)
    requires Roomy(l) && Nested(l) && width < U16 && height < U16 && packed < U16 && ticks < U64
    ensures var e := Edits(l, width, height, packed, ticks); AllLeaf(l, e) && AllMissing(e)
  {
    hide Be16, Be32, Be64;
  }

  /** What the source demands of the template's versions and of its arguments. */
  predicate Demands(moov: Text, l: Layout, look: Look) {
    && look.width < U16 && look.height < U16 && Iso639(look.language).Some?
    && l.mdhd.offset + 8 < |moov| && moov[l.mdhd.offset + 8] == 0 && l.mehd.offset + 8 < |moov| && moov[l.mehd.offset + 8] == 1
  }

  lemma {:induction false} PutOne(moov: Text, a: Edit)
    ensures PutAll(moov, [a]) == Put(moov, a.at, a.bytes)
  {
    hide Put;
    assert [a][..0] == [];
  }

  lemma {:induction false} PutTwo(moov: Text, a: Edit, b: Edit)
    ensures PutAll(moov, [a, b])
         == match Put(moov, a.at, a.bytes) case None => None case Some(m) => Put(m, b.at, b.bytes)
  {
    hide Put;
    PutOne(moov, a);
    assert [a, b][..1] == [a];
  }

  lemma {:induction false} PutBoth(moov: Text, a: seq<Edit>, b: seq<Edit>)
    ensures PutAll(moov, a + b) == match PutAll(moov, a) case None => None case Some(m) => PutAll(m, b)
  {
    hide Put;
    if b == [] {
      assert a + b == a;
    } else {
      var n := |b| - 1;
      PutBoth(moov, a, b[..n]);
      assert (a + b)[..|a + b| - 1] == a + b[..n];
    }
  }

  lemma {:induction false} ByteKept(moov: Text, edits: seq<Edit>, p: nat)
    requires PutAll(moov, edits).Some? && p < |moov|
    requires forall i :: 0 <= i < |edits| ==> !(edits[i].at <= p < edits[i].at + |edits[i].bytes|)
    ensures |PutAll(moov, edits).value| == |moov| && PutAll(moov, edits).value[p] == moov[p]
  {
    if edits != [] {
      var n := |edits| - 1;
      ByteKept(moov, edits[..n], p);
      PutAt(PutAll(moov, edits[..n]).value, edits[n].at, edits[n].bytes);
    }
  }

  lemma {:induction false} SizeStage(moov: Text, l: Layout, look: Look)
    requires Lays(moov, l) && Roomy(l)
    ensures PatchSize(moov, l.trak, look)
         == if look.width < U16 && look.height < U16 then PutAll(moov, SizeEdits(l, look.width, look.height)) else None
  {
    hide OneBox, Put, Be32, Inside;
    if look.width < U16 && look.height < U16 {
      var e := SizeEdits(l, look.width, look.height);
      PutTwo(moov, e[0], e[1]);
    }
  }

  lemma {:induction false} MediaStage(moov: Text, l: Layout, look: Look)
    requires Lays(moov, l) && Roomy(l) && l.mdhd.offset + 8 < |moov|
    ensures PatchMedia(moov, l.trak, look)
         == if moov[l.mdhd.offset + 8] == 0 && Iso639(look.language).Some?
            then PutAll(moov, MediaEdits(l, Iso639(look.language).value)) else None
  {
    hide OneBox, Put, Be16, Inside, Iso639;
    if Iso639(look.language).Some? {
      var e := MediaEdits(l, Iso639(look.language).value);
      PutTwo(moov, e[0], e[1]);
    }
  }

  lemma {:induction false} HeaderStage(moov: Text, l: Layout)
    requires Lays(moov, l)
    ensures OneBox(moov, MVHD, 8, |moov|) == Some(l.mvhd)
    ensures Put(moov, l.mvhd.offset + 12, ZERO8) == PutAll(moov, HeaderEdits(l))
  {
    hide OneBox, Put, PutAll, Inside;
    PutOne(moov, HeaderEdits(l)[0]);
  }

  lemma {:induction false} DurationStage(moov: Text, l: Layout, ticks: nat)
    requires Lays(moov, l) && Roomy(l) && l.mehd.offset + 8 < |moov| && ticks < U64
    ensures PatchDuration(moov, ticks)
         == if moov[l.mehd.offset + 8] != 1 || PutAll(moov, DurationEdits(l, ticks)).None? then None
            else Some((PutAll(moov, DurationEdits(l, ticks)).value, l.mehd.offset + 12))
  {
    hide OneBox, Put, Be64, Inside;
    PutOne(moov, DurationEdits(l, ticks)[0]);
  }

  /** One group of edits stands, and bytes outside the edited fields stay. */
  lemma {:induction false} GroupStands(moov: Text, l: Layout, edits: seq<Edit>, p: nat, q: nat)
    requires Lays(moov, l) && AllLeaf(l, edits) && AllMissing(edits) && p < |moov| && q < |moov|
    requires forall i :: 0 <= i < |edits| ==> !(edits[i].at <= p < edits[i].at + |edits[i].bytes|)
    requires forall i :: 0 <= i < |edits| ==> !(edits[i].at <= q < edits[i].at + |edits[i].bytes|)
    ensures PutAll(moov, edits).Some? && Lays(PutAll(moov, edits).value, l) && |PutAll(moov, edits).value| == |moov|
    ensures PutAll(moov, edits).value[p] == moov[p] && PutAll(moov, edits).value[q] == moov[q]
  {
    hide Lays, PutAll, AllLeaf, AllMissing;
    EditsStand(moov, l, edits);
    ByteKept(moov, edits, p);
    ByteKept(moov, edits, q);
  }

  predicate SizeOk(look: Look) { look.width < U16 && look.height < U16 }

  /** The two version bytes lie in the box, and no edit of the track's header or of the movie's touches them. */
  lemma {:induction false} VersionsApart(moov: Text, l: Layout)
    requires Lays(moov, l) && Roomy(l)
    ensures l.mdhd.offset + 8 < |moov| && l.mehd.offset + 8 < |moov| && Nested(l)
  {
    hide OneBox, BoxesIn, Inside, Nested;
    BoxesNest(moov, l);
    OneBoxIn(moov, MDHD, l.mdia.offset + 8, l.mdia.offset + l.mdia.size);
    OneBoxIn(moov, MEHD, l.mvex.offset + 8, l.mvex.offset + l.mvex.size);
  }

  lemma {:induction false} HeaderGroup(moov: Text, l: Layout)
    requires Lays(moov, l) && Roomy(l)
    ensures var r := PutAll(moov, HeaderEdits(l));
            && r.Some? && Lays(r.value, l) && |r.value| == |moov|
            && l.mdhd.offset + 8 < |moov| && r.value[l.mdhd.offset + 8] == moov[l.mdhd.offset + 8]
            && l.mehd.offset + 8 < |moov| && r.value[l.mehd.offset + 8] == moov[l.mehd.offset + 8]
  {
    hide Lays, PutAll;
    VersionsApart(moov, l);
    GroupStands(moov, l, HeaderEdits(l), l.mdhd.offset + 8, l.mehd.offset + 8);
  }

  lemma {:induction false} SizeGroup(moov: Text, l: Layout, width: nat, height: nat)
    requires Lays(moov, l) && Roomy(l) && width < U16 && height < U16
    ensures var r := PutAll(moov, SizeEdits(l, width, height));
            && r.Some? && Lays(r.value, l) && |r.value| == |moov|
            && l.mdhd.offset + 8 < |moov| && r.value[l.mdhd.offset + 8] == moov[l.mdhd.offset + 8]
            && l.mehd.offset + 8 < |moov| && r.value[l.mehd.offset + 8] == moov[l.mehd.offset + 8]
  {
    hide Lays, PutAll, Be32;
    VersionsApart(moov, l);
    GroupStands(moov, l, SizeEdits(l, width, height), l.mdhd.offset + 8, l.mehd.offset + 8);
  }

  lemma {:induction false} MediaGroup(moov: Text, l: Layout, packed: nat)
    requires Lays(moov, l) && Roomy(l) && packed < U16
    ensures var r := PutAll(moov, MediaEdits(l, packed));
            && r.Some? && Lays(r.value, l) && |r.value| == |moov|
            && l.mehd.offset + 8 < |moov| && r.value[l.mehd.offset + 8] == moov[l.mehd.offset + 8]
  {
    hide Lays, PutAll, Be16;
    VersionsApart(moov, l);
    GroupStands(moov, l, MediaEdits(l, packed), l.mehd.offset + 8, l.mehd.offset + 8);
  }

  lemma {:induction false} TrackStage(moov: Text, l: Layout, look: Look)
    requires Lays(moov, l) && Roomy(l) && l.mdhd.offset + 8 < |moov|
    ensures PatchTrack(moov, look)
         == if SizeOk(look) && Iso639(look.language).Some? && moov[l.mdhd.offset + 8] == 0
            then PutAll(moov, SizeEdits(l, look.width, look.height) + MediaEdits(l, Iso639(look.language).value)) else None
  {
    assert OneBox(moov, TRAK, 8, |moov|) == Some(l.trak);
    hide Lays, PutAll, PatchSize, PatchMedia, SizeEdits, MediaEdits, Iso639, OneBox;
    SizeStage(moov, l, look);
    if SizeOk(look) {
      SizeGroup(moov, l, look.width, look.height);
      var sized := PutAll(moov, SizeEdits(l, look.width, look.height)).value;
      MediaStage(sized, l, look);
      if Iso639(look.language).Some? {
        PutBoth(moov, SizeEdits(l, look.width, look.height), MediaEdits(l, Iso639(look.language).value));
      }
    }
  }

  /**
    With boxes large enough for their fields, patching succeeds exactly if the arguments and the two versions
    are as demanded and the result still names the sample description, and it is the six edits.
   */
  lemma {:induction false} PatchedIs(moov: Text, l: Layout, look: Look, ticks: nat)
    requires Lays(moov, l) && Roomy(l) && ticks < U64
    ensures !Demands(moov, l, look) ==> PatchMoov(moov, ticks, look).None?
    ensures Demands(moov, l, look) ==>
              var r := PutAll(moov, Edits(l, look.width, look.height, Iso639(look.language).value, ticks));
              && r.Some?
              && PatchMoov(moov, ticks, look)
                 == if Occurs(r.value, STPP) && Occurs(r.value, SMPTE_TT) then Some((r.value, l.mehd.offset + 12)) else None
  {
    hide Lays, PutAll, PatchTrack, PatchDuration, HeaderEdits, SizeEdits, MediaEdits, DurationEdits, Iso639, OneBox, Put, Occurs;
    HeaderGroup(moov, l);
    HeaderStage(moov, l);
    var m1 := PutAll(moov, HeaderEdits(l)).value;
    TrackStage(m1, l, look);
    if SizeOk(look) && Iso639(look.language).Some? {
      var sizes, media := SizeEdits(l, look.width, look.height), MediaEdits(l, Iso639(look.language).value);
      DurationFollows(m1, l, look.width, look.height, Iso639(look.language).value, ticks);
      FourGroups(moov, HeaderEdits(l), sizes, media, DurationEdits(l, ticks));
    }
  }

  /** What remains behind the edits of the track. */
  lemma {:induction false} DurationFollows(m1: Text, l: Layout, width: nat, height: nat, packed: nat, ticks: nat)
    requires Lays(m1, l) && Roomy(l) && ticks < U64 && width < U16 && height < U16 && packed < U16
    ensures l.mehd.offset + 8 < |m1|
    ensures var m3 := PutAll(m1, SizeEdits(l, width, height) + MediaEdits(l, packed));
            && m3.Some? && PutAll(m3.value, DurationEdits(l, ticks)).Some?
            && PatchDuration(m3.value, ticks)
               == if m1[l.mehd.offset + 8] != 1 then None
                  else Some((PutAll(m3.value, DurationEdits(l, ticks)).value, l.mehd.offset + 12))
  {
    hide Lays, PutAll, PatchDuration, SizeEdits, MediaEdits, DurationEdits;
    var sizes, media := SizeEdits(l, width, height), MediaEdits(l, packed);
    SizeGroup(m1, l, width, height);
    var m2 := PutAll(m1, sizes).value;
    MediaGroup(m2, l, packed);
    PutBoth(m1, sizes, media);
    var m3 := PutAll(m2, media).value;
    DurationGroup(m3, l, ticks);
    DurationStage(m3, l, ticks);
  }

  lemma {:induction false} DurationGroup(moov: Text, l: Layout, ticks: nat)
    requires Lays(moov, l) && Roomy(l) && ticks < U64
    ensures PutAll(moov, DurationEdits(l, ticks)).Some?
  {
    hide Lays, PutAll, Be64;
    VersionsApart(moov, l);
    GroupStands(moov, l, DurationEdits(l, ticks), l.mdhd.offset + 8, l.mehd.offset + 8);
  }

  lemma {:induction false} FourGroups(moov: Text, a: seq<Edit>, b: seq<Edit>, c: seq<Edit>, d: seq<Edit>)
    requires PutAll(moov, a).Some? && PutAll(PutAll(moov, a).value, b + c).Some?
    ensures PutAll(moov, a + b + c + d) == PutAll(PutAll(PutAll(moov, a).value, b + c).value, d)
  {
    hide PutAll;
    PutBoth(moov, a, b + c);
    assert a + (b + c) == a + b + c;
    PutBoth(moov, a + b + c, d);
  }

  /** The letters of a packed language. */
  lemma {:induction false} LanguageReads(language: Text, packed: nat)
    requires Iso639(language) == Some(packed)
    ensures packed < 0x8000 && language == [96 + packed / 1024, 96 + packed / 32 % 32, 96 + packed % 32]
  {
    var a, b, c := language[0] as int - 96, language[1] as int - 96, language[2] as int - 96;
    assert packed == a * 1024 + b * 32 + c && 1 <= a <= 26 && 1 <= b <= 26 && 1 <= c <= 26;
    assert packed / 32 == a * 32 + b;
    assert packed / 1024 == a;
  }

  /**
    A player that scans the patched box finds the same boxes and, in them, the presentation size in 16.16
    fixed point, the language, the duration, and zero creation and modification times of movie, track and media.
   */
  lemma {:induction false} PatchedReads(moov: Text, l: Layout, look: Look, ticks: nat)
    requires Lays(moov, l) && Roomy(l) && ticks < U64 && PatchMoov(moov, ticks, look).Some?
    ensures var r := PatchMoov(moov, ticks, look).value.0;
            && Lays(r, l) && l.tkhd.offset + l.tkhd.size <= |r| && l.mdhd.offset + 30 <= |r| && l.mehd.offset + 20 <= |r|
            && Read32(r, l.tkhd.offset + l.tkhd.size - 8) == look.width * U16
            && Read32(r, l.tkhd.offset + l.tkhd.size - 4) == look.height * U16
            && Some(Read16(r, l.mdhd.offset + 28)) == Iso639(look.language)
            && Read64(r, l.mehd.offset + 12) == ticks
            && At(r, l.mvhd.offset + 12, ZERO8) && At(r, l.tkhd.offset + 12, ZERO8) && At(r, l.mdhd.offset + 12, ZERO8)
  {
    hide Lays, PutAll, PatchMoov, Iso639, At, Be16, Be32, Be64, Read16, Read32, Read64, Occurs, Nested, AllLeaf, AllMissing;
    PatchedIs(moov, l, look, ticks);
    var packed := Iso639(look.language).value;
    var e := Edits(l, look.width, look.height, packed, ticks);
    var r := PutAll(moov, e).value;
    BoxesNest(moov, l);
    EditsMiss(l, look.width, look.height, packed, ticks);
    EditsStand(moov, l, e);
    assert e[0] == Edit(l.mvhd.offset + 12, ZERO8) && e[1] == Edit(l.tkhd.offset + 12, ZERO8);
    assert e[2] == Edit(l.tkhd.offset + l.tkhd.size - 8, Be32(look.width * U16) + Be32(look.height * U16));
    assert e[3] == Edit(l.mdhd.offset + 12, ZERO8) && e[4] == Edit(l.mdhd.offset + 28, Be16(packed));
    assert e[5] == Edit(l.mehd.offset + 12, Be64(ticks));
    AtParts(r, e[2].at, Be32(look.width * U16), Be32(look.height * U16));
    Word32(r, e[2].at, look.width * U16);
    Word32(r, e[2].at + 4, look.height * U16);
    Word16(r, e[4].at, packed);
    Word64(r, e[5].at, ticks);
  }

  lemma {:induction false} Word16(d: Text, at: nat, n: nat)
    requires n < U16 && At(d, at, Be16(n))
    ensures at + 2 <= |d| && Read16(d, at) == n
  {
    Read16At(d, at, n);
  }

  lemma {:induction false} Word32(d: Text, at: nat, n: nat)
    requires n < U32 && At(d, at, Be32(n))
    ensures at + 4 <= |d| && Read32(d, at) == n
  {
    Read32At(d, at, n);
  }

  lemma {:induction false} Word64(d: Text, at: nat, n: nat)
    requires n < U64 && At(d, at, Be64(n))
    ensures at + 8 <= |d| && Read64(d, at) == n
  {
    Read64At(d, at, n);
  }
}
