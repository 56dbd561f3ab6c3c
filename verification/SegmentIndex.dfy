/**
  The fragments and the two-level segment index of src/desktop/subtitle_formats/build_vita_m4t.py
  (sections 8.8 and 8.16.3 of ISO/IEC 14496-12).
 */
module SegmentIndex {
  import opened Bytes
  import opened Boxes

  const TIMESCALE: nat := 30000
  const CHILD_SIZE: nat := 52
  const MOOF_SIZE: nat := 118

  const MOOF: Name := [109, 111, 111, 102]
  const MFHD: Name := [109, 102, 104, 100]
  const TRAF: Name := [116, 114, 97, 102]
  const TFHD: Name := [116, 102, 104, 100]
  const TFDT: Name := [116, 102, 100, 116]
  const TRUN: Name := [116, 114, 117, 110]
  const SUBS: Name := [115, 117, 98, 115]
  const MDAT: Name := [109, 100, 97, 116]
  const SIDX: Name := [115, 105, 100, 120]

  /** One subtitle document and its length in milliseconds. */
  datatype Sample = Sample(xml: Text, ms: nat)

  function Ticks(ms: nat): nat { ms * TIMESCALE / 1000 }

  function FragmentSize(s: Sample): nat { MOOF_SIZE + 8 + |s.xml| }

  /** The sums over the first k samples. */
  function TicksBefore(samples: seq<Sample>, k: nat): nat
    requires k <= |samples|
  {
    if k == 0 then 0 else TicksBefore(samples, k - 1) + Ticks(samples[k - 1].ms)
  }

  function BytesBefore(samples: seq<Sample>, k: nat): nat
    requires k <= |samples|
  {
    if k == 0 then 0 else BytesBefore(samples, k - 1) + FragmentSize(samples[k - 1])
  }

  /** Every number fits the field it is packed into; otherwise `struct.pack` raises. */
  predicate Packable(samples: seq<Sample>) {
    && |samples| < U16
    && forall i :: 0 <= i < |samples| ==> Ticks(samples[i].ms) < U32 && FragmentSize(samples[i]) < U32
  }

  lemma {:induction false} SumsFit(samples: seq<Sample>, k: nat)
    requires Packable(samples) && k <= |samples|
    ensures TicksBefore(samples, k) <= k * U32 && BytesBefore(samples, k) <= k * U32
    ensures TicksBefore(samples, k) < U64 && BytesBefore(samples, k) + CHILD_SIZE * |samples| < U64
  {
    if k > 0 {
      SumsFit(samples, k - 1);
    }
    assert k * U32 <= 65535 * U32;
  }

  // ---- writing ----

  function Moof(number: nat, decodeTicks: nat, durationTicks: nat, sampleSize: nat): (s: Text)
    requires number < U32 && decodeTicks < U64 && durationTicks < U32 && sampleSize < U32
    ensures |s| == MOOF_SIZE
  {
    Box(MOOF, FullBox(MFHD, 0, 0, Be32(number)) + Box(TRAF, TrackFragment(decodeTicks, durationTicks, sampleSize)))
  }

  function TrackFragment(decodeTicks: nat, durationTicks: nat, sampleSize: nat): (s: Text)
    requires decodeTicks < U64 && durationTicks < U32 && sampleSize < U32
    ensures |s| == 86
  {
    FullBox(TFHD, 0, 0x20000, Be32(1)) + (FullBox(TFDT, 1, 0, Be64(decodeTicks))
      + (FullBox(TRUN, 0, 0x301, TrunPayload(durationTicks, sampleSize))
         + FullBox(SUBS, 0, 0, Be32(1) + Be32(1) + Be16(0))))
  }

  function TrunPayload(durationTicks: nat, sampleSize: nat): (s: Text)
    requires durationTicks < U32 && sampleSize < U32
    ensures |s| == 16
  {
    Be32(1) + (Be32(126) + (Be32(durationTicks) + Be32(sampleSize)))
  }

  function Fragment(samples: seq<Sample>, i: nat): (s: Text)
    requires Packable(samples) && i < |samples|
    ensures |s| == FragmentSize(samples[i])
  {
    SumsFit(samples, i);
    Moof(i + 1, TicksBefore(samples, i), Ticks(samples[i].ms), |samples[i].xml|) + Box(MDAT, samples[i].xml)
  }

  /** A reference: its first word holds the type bit and the size. */
  datatype Reference = Reference(kindSize: nat, duration: nat)

  predicate PackableReferences(refs: seq<Reference>) {
    |refs| < U16 && forall i :: 0 <= i < |refs| ==> refs[i].kindSize < U32 && refs[i].duration < U32
  }

  function ReferenceBytes(r: Reference): (s: Text)
    requires r.kindSize < U32 && r.duration < U32
    ensures |s| == 12
  {
    Be32(r.kindSize) + (Be32(r.duration) + Be32(0x90000000))
  }

  /** The first k references. */
  function References(refs: seq<Reference>, k: nat): (s: Text)
    requires PackableReferences(refs) && k <= |refs|
    ensures |s| == 12 * k
  {
    if k == 0 then [] else References(refs, k - 1) + ReferenceBytes(refs[k - 1])
  }

  function SidxPayload(earliest: nat, firstOffset: nat, refs: seq<Reference>): (s: Text)
    requires earliest < U64 && firstOffset < U64 && PackableReferences(refs)
    ensures |s| == 28 + 12 * |refs|
  {
    Be32(1) + (Be32(TIMESCALE) + (Be64(earliest) + (Be64(firstOffset)
      + (Be16(0) + (Be16(|refs|) + References(refs, |refs|))))))
  }

  function Sidx(earliest: nat, firstOffset: nat, refs: seq<Reference>): (s: Text)
    requires earliest < U64 && firstOffset < U64 && PackableReferences(refs)
    ensures |s| == 40 + 12 * |refs|
  {
    FullBox(SIDX, 1, 0, SidxPayload(earliest, firstOffset, refs))
  }

  function MasterReferences(samples: seq<Sample>): (refs: seq<Reference>)
    requires Packable(samples)
    ensures |refs| == |samples| && PackableReferences(refs)
    ensures forall i :: 0 <= i < |refs| ==> refs[i] == Reference(0x80000000 + CHILD_SIZE, Ticks(samples[i].ms))
  {
    seq(|samples|, i requires 0 <= i < |samples| => Reference(0x80000000 + CHILD_SIZE, Ticks(samples[i].ms)))
  }

  function Child(samples: seq<Sample>, i: nat): (s: Text)
    requires Packable(samples) && i < |samples|
    ensures |s| == CHILD_SIZE
  {
    SumsFit(samples, i);
    Sidx(TicksBefore(samples, i), (|samples| - i - 1) * CHILD_SIZE + BytesBefore(samples, i),
         [Reference(FragmentSize(samples[i]), Ticks(samples[i].ms))])
  }

  function Children(samples: seq<Sample>, k: nat): (s: Text)
    requires Packable(samples) && k <= |samples|
    ensures |s| == CHILD_SIZE * k
  {
    if k == 0 then [] else Children(samples, k - 1) + Child(samples, k - 1)
  }

  function Fragments(samples: seq<Sample>, k: nat): (s: Text)
    requires Packable(samples) && k <= |samples|
    ensures |s| == BytesBefore(samples, k)
  {
    if k == 0 then [] else Fragments(samples, k - 1) + Fragment(samples, k - 1)
  }

  function Master(samples: seq<Sample>): (s: Text)
    requires Packable(samples)
    ensures |s| == 40 + 12 * |samples|
  {
    Sidx(0, 0, MasterReferences(samples))
  }

  /** The whole file behind an ftyp and a moov box. */
  function File(header: Text, samples: seq<Sample>): Text
    requires Packable(samples)
  {
    header + (Master(samples) + (Children(samples, |samples|) + Fragments(samples, |samples|)))
  }

  // ---- reading back ----

  /** The entries of one type. */
  function Named(entries: seq<Entry>, name: Name): (found: seq<Entry>)
    ensures forall e :: e in found ==> e in entries && e.name == name
  {
    if entries == [] then []
    else (if entries[0].name == name then [entries[0]] else []) + Named(entries[1..], name)
  }

  /** `one_box`: the only box of its type in a range. */
  function OneBox(data: Text, name: Name, start: nat, end: nat): (r: Option<Entry>)
    requires end <= |data|
    ensures r.Some? ==> Inside(data, r.value, start, end) && r.value.name == name
  {
    match BoxesIn(data, start, end)
    case None => None
    case Some(entries) =>
      ScannedInside(data, start, end);
      var found := Named(entries, name);
      if |found| == 1 then assert found[0] in found; Some(found[0]) else None
  }

  /** What a player takes from a movie fragment: its decode time and where its sample lies. */
  datatype Timing = Timing(decodeTicks: nat, duration: nat, dataStart: nat, dataSize: nat)

  function ReadMoof(data: Text, at: nat): Option<Timing> {
    if at + 8 > |data| || data[at + 4..at + 8] != MOOF || at + Read32(data, at) > |data| then None
    else
      match OneBox(data, TRAF, at + 8, at + Read32(data, at))
      case None => None
      case Some(traf) => if traf.offset + traf.size > |data| then None else
        match (OneBox(data, TFDT, traf.offset + 8, traf.offset + traf.size),
               OneBox(data, TRUN, traf.offset + 8, traf.offset + traf.size))
        case (Some(tfdt), Some(trun)) =>
          if tfdt.offset + 20 > |data| || trun.offset + 28 > |data| then None
          else Some(Timing(Read64(data, tfdt.offset + 12), Read32(data, trun.offset + 20),
                           at + Read32(data, trun.offset + 16), Read32(data, trun.offset + 24)))
        case _ => None
  }

  lemma {:induction false} OneOfFour(a: Entry, b: Entry, c: Entry, d: Entry, name: Name)
    ensures var found := Named([a, b, c, d], name);
            && (a.name != name && b.name == name && c.name != name && d.name != name ==> found == [b])
            && (a.name != name && b.name != name && c.name == name && d.name != name ==> found == [c])
  {
    assert [a, b, c, d][1..] == [b, c, d] && [b, c, d][1..] == [c, d] && [c, d][1..] == [d] && [d][1..] == [];
    assert Named([d], name) == if d.name == name then [d] else [];
    assert Named([c, d], name) == (if c.name == name then [c] else []) + Named([d], name);
  }

  /** Where the parts of a track fragment stand. */
  lemma {:induction false} TrackFragmentParts(data: Text, at: nat, decodeTicks: nat, duration: nat, size: nat)
    requires decodeTicks < U64 && duration < U32 && size < U32
    requires At(data, at, TrackFragment(decodeTicks, duration, size))
    ensures At(data, at, FullBox(TFHD, 0, 0x20000, Be32(1)))
    ensures At(data, at + 16, FullBox(TFDT, 1, 0, Be64(decodeTicks)))
    ensures At(data, at + 36, FullBox(TRUN, 0, 0x301, TrunPayload(duration, size)))
    ensures At(data, at + 64, FullBox(SUBS, 0, 0, Be32(1) + Be32(1) + Be16(0)))
  {
    var tfhd, tfdt := FullBox(TFHD, 0, 0x20000, Be32(1)), FullBox(TFDT, 1, 0, Be64(decodeTicks));
    var trun := FullBox(TRUN, 0, 0x301, TrunPayload(duration, size));
    var subs := FullBox(SUBS, 0, 0, Be32(1) + Be32(1) + Be16(0));
    AtParts(data, at, tfhd, tfdt + (trun + subs));
    AtParts(data, at + 16, tfdt, trun + subs);
    AtParts(data, at + 36, trun, subs);
  }

  lemma {:induction false} TrackFragmentReads(data: Text, at: nat, decodeTicks: nat, duration: nat, size: nat)
    requires decodeTicks < U64 && duration < U32 && size < U32
    requires At(data, at, TrackFragment(decodeTicks, duration, size))
    ensures Read64(data, at + 28) == decodeTicks
    ensures Read32(data, at + 52) == 126 && Read32(data, at + 56) == duration && Read32(data, at + 60) == size
  {
    TrackFragmentParts(data, at, decodeTicks, duration, size);
    FullPayloadAt(data, at + 16, TFDT, 1, 0, Be64(decodeTicks));
    Read64At(data, at + 28, decodeTicks);
    FullPayloadAt(data, at + 36, TRUN, 0, 0x301, TrunPayload(duration, size));
    TrunReads(data, at + 48, duration, size);
  }

  lemma {:induction false} ScanEnd(data: Text, end: nat)
    requires end <= |data|
    ensures BoxesIn(data, end, end) == Some([])
  {
  }

  lemma {:induction false} TrackFragmentTail(data: Text, at: nat, end: nat, duration: nat, size: nat)
    requires duration < U32 && size < U32 && end == at + 50 <= |data|
    requires At(data, at, FullBox(TRUN, 0, 0x301, TrunPayload(duration, size)))
    requires At(data, at + 28, FullBox(SUBS, 0, 0, Be32(1) + Be32(1) + Be16(0)))
    ensures BoxesIn(data, at, end) == Some([Entry(at, 28, TRUN), Entry(at + 28, 22, SUBS)])
  {
    ScanEnd(data, end);
    ScanFull(data, at + 28, end, SUBS, 0, 0, Be32(1) + Be32(1) + Be16(0));
    ScanFull(data, at, end, TRUN, 0, 0x301, TrunPayload(duration, size));
    var trun, subs := Entry(at, 28, TRUN), Entry(at + 28, 22, SUBS);
    assert [subs] + [] == [subs] && [trun] + [subs] == [trun, subs];
  }

  lemma {:induction false} TrackFragmentScan(data: Text, at: nat, decodeTicks: nat, duration: nat, size: nat)
    requires decodeTicks < U64 && duration < U32 && size < U32
    requires At(data, at, TrackFragment(decodeTicks, duration, size))
    ensures BoxesIn(data, at, at + 86) == Some([Entry(at, 16, TFHD), Entry(at + 16, 20, TFDT),
                                                Entry(at + 36, 28, TRUN), Entry(at + 64, 22, SUBS)])
  {
    TrackFragmentParts(data, at, decodeTicks, duration, size);
    TrackFragmentTail(data, at + 36, at + 86, duration, size);
    ScanFull(data, at + 16, at + 86, TFDT, 1, 0, Be64(decodeTicks));
    ScanFull(data, at, at + 86, TFHD, 0, 0x20000, Be32(1));
    var tfhd, tfdt := Entry(at, 16, TFHD), Entry(at + 16, 20, TFDT);
    var trun, subs := Entry(at + 36, 28, TRUN), Entry(at + 64, 22, SUBS);
    assert [tfdt] + [trun, subs] == [tfdt, trun, subs];
    assert [tfhd] + [tfdt, trun, subs] == [tfhd, tfdt, trun, subs];
  }

  lemma {:induction false} ScanFull(data: Text, start: nat, end: nat, name: Name, version: byte, flags: nat, payload: Text)
    requires |payload| + 12 < U32 && flags < 0x1000000 && start + |payload| + 12 <= end <= |data|
    requires At(data, start, FullBox(name, version, flags, payload))
    ensures var rest := BoxesIn(data, start + |payload| + 12, end);
            BoxesIn(data, start, end)
            == if rest.None? then None else Some([Entry(start, |payload| + 12, name)] + rest.value)
  {
    ScanWritten(data, start, end, name, [version, flags / U16, flags / 256 % 256, flags % 256] + payload);
  }

  lemma {:induction false} TrunReads(data: Text, at: nat, duration: nat, size: nat)
    requires duration < U32 && size < U32 && At(data, at, TrunPayload(duration, size))
    ensures Read32(data, at + 4) == 126 && Read32(data, at + 8) == duration && Read32(data, at + 12) == size
  {
    AtParts(data, at, Be32(1), Be32(126) + (Be32(duration) + Be32(size)));
    AtParts(data, at + 4, Be32(126), Be32(duration) + Be32(size));
    AtParts(data, at + 8, Be32(duration), Be32(size));
    Read32At(data, at + 4, 126);
    Read32At(data, at + 8, duration);
    Read32At(data, at + 12, size);
  }

  lemma {:induction false} MoofParts(data: Text, at: nat, number: nat, decodeTicks: nat, duration: nat, size: nat)
    requires number < U32 && decodeTicks < U64 && duration < U32 && size < U32
    requires At(data, at, Moof(number, decodeTicks, duration, size))
    ensures At(data, at, Be32(118)) && At(data, at + 4, MOOF)
    ensures At(data, at + 8, FullBox(MFHD, 0, 0, Be32(number)))
    ensures At(data, at + 24, Box(TRAF, TrackFragment(decodeTicks, duration, size)))
  {
    var mfhd, traf := FullBox(MFHD, 0, 0, Be32(number)), Box(TRAF, TrackFragment(decodeTicks, duration, size));
    assert Box(MOOF, mfhd + traf) == Be32(118) + (MOOF + (mfhd + traf));
    AtParts(data, at, Be32(118), MOOF + (mfhd + traf));
    AtParts(data, at + 4, MOOF, mfhd + traf);
    AtParts(data, at + 8, mfhd, traf);
  }

  lemma {:induction false} MoofScan(data: Text, at: nat, number: nat, track: Text)
    requires number < U32 && |track| == 86
    requires At(data, at + 8, FullBox(MFHD, 0, 0, Be32(number))) && At(data, at + 24, Box(TRAF, track))
    ensures OneBox(data, TRAF, at + 8, at + 118) == Some(Entry(at + 24, 94, TRAF))
  {
    hide BoxesIn, Be32, FullBox;
    ScanEnd(data, at + 118);
    ScanWritten(data, at + 24, at + 118, TRAF, track);
    ScanFull(data, at + 8, at + 118, MFHD, 0, 0, Be32(number));
    var mfhd, traf := Entry(at + 8, 16, MFHD), Entry(at + 24, 94, TRAF);
    assert [traf] + [] == [traf] && [mfhd] + [traf] == [mfhd, traf];
    assert MFHD[0] != TRAF[0];
    assert [mfhd, traf][1..] == [traf] && [traf][1..] == [];
    assert Named([traf], TRAF) == [traf];
  }

  lemma {:induction false} TrackFragmentBoxes(data: Text, at: nat, decodeTicks: nat, duration: nat, size: nat)
    requires decodeTicks < U64 && duration < U32 && size < U32
    requires At(data, at, TrackFragment(decodeTicks, duration, size))
    ensures OneBox(data, TFDT, at, at + 86) == Some(Entry(at + 16, 20, TFDT))
    ensures OneBox(data, TRUN, at, at + 86) == Some(Entry(at + 36, 28, TRUN))
  {
    hide TrackFragment;
    TrackFragmentScan(data, at, decodeTicks, duration, size);
    assert TFHD[2] != TFDT[2] && TFDT[1] != TRUN[1] && TRUN[0] != SUBS[0] && TFHD[1] != TRUN[1] && TFDT[0] != SUBS[0];
    OneOfFour(Entry(at, 16, TFHD), Entry(at + 16, 20, TFDT), Entry(at + 36, 28, TRUN), Entry(at + 64, 22, SUBS), TFDT);
    OneOfFour(Entry(at, 16, TFHD), Entry(at + 16, 20, TFDT), Entry(at + 36, 28, TRUN), Entry(at + 64, 22, SUBS), TRUN);
  }

  /** A written moof reads back: its decode time, its duration, and data 126 bytes behind its start. */
  lemma {:induction false} MoofReads(data: Text, at: nat, number: nat, decodeTicks: nat, duration: nat, size: nat)
    requires number < U32 && decodeTicks < U64 && duration < U32 && size < U32
    requires At(data, at, Moof(number, decodeTicks, duration, size))
    ensures ReadMoof(data, at) == Some(Timing(decodeTicks, duration, at + 126, size))
  {
    var track := TrackFragment(decodeTicks, duration, size);
    MoofParts(data, at, number, decodeTicks, duration, size);
    Read32At(data, at, 118);
    MoofScan(data, at, number, track);
    PayloadAt(data, at + 24, TRAF, track);
    TrackFragmentBoxes(data, at + 32, decodeTicks, duration, size);
    TrackFragmentReads(data, at + 32, decodeTicks, duration, size);
  }

  /** A segment index as a player reads it; `end` is the anchor of its offsets. */
  datatype Index = Index(earliest: nat, firstOffset: nat, refs: seq<IndexReference>, end: nat)
  datatype IndexReference = IndexReference(isIndex: bool, size: nat, duration: nat)

  const TYPE_BIT: nat := 0x80000000

  function ReadReference(data: Text, at: nat): IndexReference
    requires at + 12 <= |data|
  {
    var word := Read32(data, at);
    IndexReference(word >= TYPE_BIT, word % TYPE_BIT, Read32(data, at + 4))
  }

  function ReadSidx(data: Text, at: nat): Option<Index> {
    if at + 40 > |data| || data[at + 4..at + 8] != SIDX || data[at + 8] != 1 then None
    else
      var count := Read16(data, at + 38);
      if Read32(data, at) != 40 + 12 * count || at + 40 + 12 * count > |data| then None
      else Some(Index(Read64(data, at + 20), Read64(data, at + 28),
                      seq(count, i requires 0 <= i < count => ReadReference(data, at + 40 + 12 * i)),
                      at + 40 + 12 * count))
  }

  lemma {:induction false} ReferenceReads(data: Text, at: nat, refs: seq<Reference>, k: nat, i: nat)
    requires PackableReferences(refs) && i < k <= |refs| && At(data, at, References(refs, k))
    ensures at + 12 * i + 12 <= |data|
    ensures ReadReference(data, at + 12 * i)
         == IndexReference(refs[i].kindSize >= TYPE_BIT, refs[i].kindSize % TYPE_BIT, refs[i].duration)
  {
    AtParts(data, at, References(refs, k - 1), ReferenceBytes(refs[k - 1]));
    if i < k - 1 {
      ReferenceReads(data, at, refs, k - 1, i);
    } else {
      OneReferenceReads(data, at + 12 * i, refs[i]);
    }
  }

  lemma {:induction false} OneReferenceReads(data: Text, at: nat, r: Reference)
    requires r.kindSize < U32 && r.duration < U32 && At(data, at, ReferenceBytes(r))
    ensures ReadReference(data, at) == IndexReference(r.kindSize >= TYPE_BIT, r.kindSize % TYPE_BIT, r.duration)
  {
    AtParts(data, at, Be32(r.kindSize), Be32(r.duration) + Be32(0x90000000));
    AtParts(data, at + 4, Be32(r.duration), Be32(0x90000000));
    Read32At(data, at, r.kindSize);
    Read32At(data, at + 4, r.duration);
  }

  lemma {:induction false} SidxHeader(data: Text, at: nat, earliest: nat, firstOffset: nat, refs: seq<Reference>)
    requires earliest < U64 && firstOffset < U64 && PackableReferences(refs)
    requires At(data, at, SidxPayload(earliest, firstOffset, refs))
    ensures Read64(data, at + 8) == earliest && Read64(data, at + 16) == firstOffset
    ensures Read16(data, at + 26) == |refs| && At(data, at + 28, References(refs, |refs|))
  {
    var tail := Be16(|refs|) + References(refs, |refs|);
    AtParts(data, at, Be32(1), Be32(TIMESCALE) + (Be64(earliest) + (Be64(firstOffset) + (Be16(0) + tail))));
    AtParts(data, at + 4, Be32(TIMESCALE), Be64(earliest) + (Be64(firstOffset) + (Be16(0) + tail)));
    AtParts(data, at + 8, Be64(earliest), Be64(firstOffset) + (Be16(0) + tail));
    AtParts(data, at + 16, Be64(firstOffset), Be16(0) + tail);
    AtParts(data, at + 24, Be16(0), tail);
    AtParts(data, at + 26, Be16(|refs|), References(refs, |refs|));
    Read64At(data, at + 8, earliest);
    Read64At(data, at + 16, firstOffset);
    Read16At(data, at + 26, |refs|);
  }

  lemma {:induction false} SidxParts(data: Text, at: nat, earliest: nat, firstOffset: nat, refs: seq<Reference>)
    requires earliest < U64 && firstOffset < U64 && PackableReferences(refs)
    requires At(data, at, Sidx(earliest, firstOffset, refs))
    ensures At(data, at + 4, SIDX) && data[at + 8] == 1 && Read32(data, at) == 40 + 12 * |refs|
    ensures At(data, at + 12, SidxPayload(earliest, firstOffset, refs))
  {
    var payload := SidxPayload(earliest, firstOffset, refs);
    FullPayloadAt(data, at, SIDX, 1, 0, payload);
    var body: Text := [1, 0, 0, 0] + payload;
    assert Sidx(earliest, firstOffset, refs) == Be32(|body| + 8) + (SIDX + body);
    AtParts(data, at, Be32(|body| + 8), SIDX + body);
    AtParts(data, at + 4, SIDX, body);
    Read32At(data, at, |body| + 8);
  }

  /** What a player must find in a written index. */
  predicate Describes(index: Index, at: nat, earliest: nat, firstOffset: nat, refs: seq<Reference>) {
    && index.earliest == earliest && index.firstOffset == firstOffset
    && index.end == at + 40 + 12 * |refs| && |index.refs| == |refs|
    && forall i :: 0 <= i < |refs| ==>
         index.refs[i] == IndexReference(refs[i].kindSize >= TYPE_BIT, refs[i].kindSize % TYPE_BIT, refs[i].duration)
  }

  /** A written segment index reads back. */
  lemma {:induction false} SidxReads(data: Text, at: nat, earliest: nat, firstOffset: nat, refs: seq<Reference>)
    requires earliest < U64 && firstOffset < U64 && PackableReferences(refs)
    requires At(data, at, Sidx(earliest, firstOffset, refs))
    ensures ReadSidx(data, at).Some? && Describes(ReadSidx(data, at).value, at, earliest, firstOffset, refs)
  {
    hide Sidx, SidxPayload, References, ReadReference, Read16, Read32, Read64;
    SidxParts(data, at, earliest, firstOffset, refs);
    SidxHeader(data, at + 12, earliest, firstOffset, refs);
    forall i | 0 <= i < |refs|
      ensures at + 40 + 12 * i + 12 <= |data|
      ensures ReadReference(data, at + 40 + 12 * i)
           == IndexReference(refs[i].kindSize >= TYPE_BIT, refs[i].kindSize % TYPE_BIT, refs[i].duration)
    {
      ReferenceReads(data, at + 40, refs, |refs|, i);
    }
  }
}
