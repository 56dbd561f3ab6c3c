/** The whole M4T file: what `build` writes, and that its index leads to its fragments. */
module M4tFile {
  import opened Bytes
  import opened Boxes
  import opened SegmentIndex

  const FTYP: Name := [102, 116, 121, 112]
  const MOOV: Name := [109, 111, 111, 118]

  // ---- the loops of the builder ----

  /** The index in one pass with running sums. */
  method MakeSidx(samples: seq<Sample>) returns (index: Text)
    requires Packable(samples)
    ensures index == Master(samples) + Children(samples, |samples|)
  {
    hide Sidx, Master, Ticks;
    var children: Text := [];
    var mediaBefore, timeBefore := 0, 0;
    for i := 0 to |samples|
      invariant mediaBefore == BytesBefore(samples, i) && timeBefore == TicksBefore(samples, i)
      invariant children == Children(samples, i)
    {
      SumsFit(samples, i);
      var firstOffset := (|samples| - i - 1) * CHILD_SIZE + mediaBefore;
      var size, duration := FragmentSize(samples[i]), Ticks(samples[i].ms);
      children := children + Sidx(timeBefore, firstOffset, [Reference(size, duration)]);
      mediaBefore, timeBefore := mediaBefore + size, timeBefore + duration;
    }
    return Master(samples) + children;
  }

  /** The fragments in one pass; the running decode time ends as the total duration. */
  method MakeFragments(samples: seq<Sample>) returns (fragments: Text, decodeTicks: nat)
    requires Packable(samples)
    ensures fragments == Fragments(samples, |samples|) && decodeTicks == TicksBefore(samples, |samples|)
  {
    fragments, decodeTicks := [], 0;
    for i := 0 to |samples|
      invariant fragments == Fragments(samples, i) && decodeTicks == TicksBefore(samples, i)
    {
      SumsFit(samples, i);
      var duration := Ticks(samples[i].ms);
      fragments := fragments
        + (Moof(i + 1, decodeTicks, duration, |samples[i].xml|) + Box(MDAT, samples[i].xml));
      decodeTicks := decodeTicks + duration;
    }
  }

  // ---- where things stand in the file ----

  function IndexStart(header: Text, samples: seq<Sample>): nat { |header| }

  function ChildStart(header: Text, samples: seq<Sample>, i: nat): nat {
    |header| + 40 + 12 * |samples| + CHILD_SIZE * i
  }

  function FragmentStart(header: Text, samples: seq<Sample>, i: nat): nat
    requires i <= |samples|
  {
    ChildStart(header, samples, |samples|) + BytesBefore(samples, i)
  }

  lemma {:induction false} ChildAt(samples: seq<Sample>, k: nat, i: nat)
    requires Packable(samples) && i < k <= |samples|
    ensures At(Children(samples, k), CHILD_SIZE * i, Child(samples, i))
  {
    hide At, Child;
    if i < k - 1 {
      ChildAt(samples, k - 1, i);
      AtLeft(Children(samples, k - 1), Child(samples, k - 1), CHILD_SIZE * i, Child(samples, i));
    } else {
      AtSelf(Child(samples, i));
      AtRight(Children(samples, i), Child(samples, i), 0, Child(samples, i));
    }
  }

  lemma {:induction false} FragmentAt(samples: seq<Sample>, k: nat, i: nat)
    requires Packable(samples) && i < k <= |samples|
    ensures At(Fragments(samples, k), BytesBefore(samples, i), Fragment(samples, i))
  {
    hide At, Fragment;
    if i < k - 1 {
      FragmentAt(samples, k - 1, i);
      AtLeft(Fragments(samples, k - 1), Fragment(samples, k - 1), BytesBefore(samples, i), Fragment(samples, i));
    } else {
      AtSelf(Fragment(samples, i));
      AtRight(Fragments(samples, i), Fragment(samples, i), 0, Fragment(samples, i));
    }
  }

  lemma {:induction false} AtSelf(s: Text)
    ensures At(s, 0, s)
  {
  }

  lemma {:induction false} FileParts(header: Text, samples: seq<Sample>)
    requires Packable(samples)
    ensures var data, n := File(header, samples), |samples|;
            && At(data, |header|, Master(samples))
            && At(data, ChildStart(header, samples, 0), Children(samples, n))
            && At(data, FragmentStart(header, samples, 0), Fragments(samples, n))
            && |data| == FragmentStart(header, samples, n)
  {
    hide Master, Children, Fragments;
    var data, n := File(header, samples), |samples|;
    var master, children, fragments := Master(samples), Children(samples, n), Fragments(samples, n);
    AtSelf(data);
    AtParts(data, 0, header, master + (children + fragments));
    AtParts(data, |header|, master, children + fragments);
    AtParts(data, |header| + |master|, children, fragments);
  }

  lemma {:induction false} PartsAt(header: Text, samples: seq<Sample>, i: nat)
    requires Packable(samples) && i < |samples|
    ensures var data := File(header, samples);
            && At(data, |header|, Master(samples))
            && At(data, ChildStart(header, samples, i), Child(samples, i))
            && At(data, FragmentStart(header, samples, i), Fragment(samples, i))
  {
    hide File, Master, Child, Children, Fragment, Fragments, At;
    var data, n := File(header, samples), |samples|;
    FileParts(header, samples);
    ChildAt(samples, n, i);
    FragmentAt(samples, n, i);
    AtInside(data, ChildStart(header, samples, 0), Children(samples, n), CHILD_SIZE * i, Child(samples, i));
    AtInside(data, FragmentStart(header, samples, 0), Fragments(samples, n), BytesBefore(samples, i), Fragment(samples, i));
  }

  // ---- the index leads to the fragments ----

  /** The bytes covered by the first k references of an index. */
  function SizesBefore(refs: seq<IndexReference>, k: nat): nat
    requires k <= |refs|
  {
    if k == 0 then 0 else SizesBefore(refs, k - 1) + refs[k - 1].size
  }

  lemma {:induction false} ChildSizes(refs: seq<IndexReference>, k: nat)
    requires k <= |refs| && forall i :: 0 <= i < |refs| ==> refs[i].size == CHILD_SIZE
    ensures SizesBefore(refs, k) == CHILD_SIZE * k
  {
    if k > 0 {
      ChildSizes(refs, k - 1);
    }
  }

  /** The index a player finds by following the master index to its i-th reference. */
  function FollowMaster(data: Text, at: nat, i: nat): Option<Index> {
    var master :- ReadSidx(data, at);
    if i >= |master.refs| then None
    else ReadSidx(data, master.end + master.firstOffset + SizesBefore(master.refs, i))
  }

  lemma {:induction false} MasterLeadsToChild(header: Text, samples: seq<Sample>, i: nat)
    requires Packable(samples) && i < |samples|
    ensures var data := File(header, samples);
            var master, child := ReadSidx(data, |header|), FollowMaster(data, |header|, i);
            && master.Some? && |master.value.refs| == |samples|
            && master.value.refs[i] == IndexReference(true, CHILD_SIZE, Ticks(samples[i].ms))
            && child.Some? && child == ReadSidx(data, ChildStart(header, samples, i))
  {
    hide File, Children, Fragments, Sidx, ReadSidx, Ticks;
    var data := File(header, samples);
    PartsAt(header, samples, i);
    SidxReads(data, |header|, 0, 0, MasterReferences(samples));
    var master := ReadSidx(data, |header|).value;
    ChildSizes(master.refs, i);
    ChildReads(data, ChildStart(header, samples, i), samples, i);
  }

  function ChildOffset(samples: seq<Sample>, i: nat): nat
    requires i < |samples|
  {
    (|samples| - i - 1) * CHILD_SIZE + BytesBefore(samples, i)
  }

  lemma {:induction false} ChildReads(data: Text, at: nat, samples: seq<Sample>, i: nat)
    requires Packable(samples) && i < |samples| && At(data, at, Child(samples, i))
    ensures ReadSidx(data, at).Some?
    ensures Describes(ReadSidx(data, at).value, at, TicksBefore(samples, i), ChildOffset(samples, i),
                      [Reference(FragmentSize(samples[i]), Ticks(samples[i].ms))])
  {
    hide Sidx, ReadSidx, Ticks, Describes, At;
    SumsFit(samples, i);
    SidxReads(data, at, TicksBefore(samples, i), ChildOffset(samples, i),
              [Reference(FragmentSize(samples[i]), Ticks(samples[i].ms))]);
  }

  /** At a fragment's start a player reads its decode time and finds exactly its document. */
  lemma {:induction false} FragmentReads(data: Text, at: nat, samples: seq<Sample>, i: nat)
    requires Packable(samples) && i < |samples| && At(data, at, Fragment(samples, i))
    ensures ReadMoof(data, at)
         == Some(Timing(TicksBefore(samples, i), Ticks(samples[i].ms), at + 126, |samples[i].xml|))
    ensures At(data, at + 126, samples[i].xml)
  {
    hide Moof, Box, TrackFragment, ReadMoof, Ticks;
    SumsFit(samples, i);
    var moof := Moof(i + 1, TicksBefore(samples, i), Ticks(samples[i].ms), |samples[i].xml|);
    AtParts(data, at, moof, Box(MDAT, samples[i].xml));
    MoofReads(data, at, i + 1, TicksBefore(samples, i), Ticks(samples[i].ms), |samples[i].xml|);
    PayloadAt(data, at + 118, MDAT, samples[i].xml);
  }

  /**
    What a player must find for sample `s` when a child index leads it to `landing`. The child's 31-bit
    size field, with the media type bit, holds the fragment's size exactly when it is below 2 GiB.
   */
  predicate Agrees(data: Text, child: Index, s: Sample, earliest: nat, landing: nat) {
    && |child.refs| == 1
    && child.end + child.firstOffset == landing
    && child.earliest == earliest && child.refs[0].duration == Ticks(s.ms)
    && ReadMoof(data, landing) == Some(Timing(earliest, Ticks(s.ms), landing + 126, |s.xml|))
    && At(data, landing + 126, s.xml)
    && (child.refs[0] == IndexReference(false, FragmentSize(s), Ticks(s.ms)) <==> FragmentSize(s) < TYPE_BIT)
  }

  lemma {:induction false} ChildMeaning(child: Index, at: nat, earliest: nat, offset: nat, size: nat, duration: nat)
    requires Describes(child, at, earliest, offset, [Reference(size, duration)])
    ensures |child.refs| == 1 && child.end + child.firstOffset == at + CHILD_SIZE + offset
    ensures child.earliest == earliest && child.refs[0].duration == duration
    ensures child.refs[0] == IndexReference(false, size, duration) <==> size < TYPE_BIT
  {
  }

  /** The later children and the earlier fragments are what the first offset skips. */
  lemma {:induction false} LandingPosition(header: Text, samples: seq<Sample>, i: nat)
    requires i < |samples|
    ensures ChildStart(header, samples, i) + CHILD_SIZE + ChildOffset(samples, i) == FragmentStart(header, samples, i)
  {
    hide BytesBefore;
    assert CHILD_SIZE == 52;
  }

  /**
    The two-level index lands on the first byte of fragment i; index and fragment agree on time and
    duration, and the run's data offset selects exactly the document.
   */
  lemma {:induction false} IndexLeadsToDocument(header: Text, samples: seq<Sample>, i: nat)
    requires Packable(samples) && i < |samples|
    ensures var child := FollowMaster(File(header, samples), |header|, i);
            && child.Some?
            && Agrees(File(header, samples), child.value, samples[i], TicksBefore(samples, i),
                      FragmentStart(header, samples, i))
  {
    hide *;
    var data, at := File(header, samples), ChildStart(header, samples, i);
    MasterLeadsToChild(header, samples, i);
    PartsAt(header, samples, i);
    ChildReads(data, at, samples, i);
    FragmentReads(data, FragmentStart(header, samples, i), samples, i);
    LandingPosition(header, samples, i);
    ChildAgrees(data, FollowMaster(data, |header|, i).value, at, samples[i], TicksBefore(samples, i),
                ChildOffset(samples, i), FragmentStart(header, samples, i));
  }

  lemma {:induction false} ChildAgrees(data: Text, child: Index, at: nat, s: Sample, earliest: nat, offset: nat, landing: nat)
    requires Describes(child, at, earliest, offset, [Reference(FragmentSize(s), Ticks(s.ms))])
    requires at + CHILD_SIZE + offset == landing
    requires ReadMoof(data, landing) == Some(Timing(earliest, Ticks(s.ms), landing + 126, |s.xml|))
    requires At(data, landing + 126, s.xml)
    ensures Agrees(data, child, s, earliest, landing)
  {
    hide ReadMoof, Ticks, FragmentSize;
    ChildMeaning(child, at, earliest, offset, FragmentSize(s), Ticks(s.ms));
  }

  /** Milliseconds convert to ticks without rounding, so the total is thirty ticks a millisecond. */
  function TotalMs(samples: seq<Sample>, k: nat): nat
    requires k <= |samples|
  {
    if k == 0 then 0 else TotalMs(samples, k - 1) + samples[k - 1].ms
  }

  lemma {:induction false} TotalTicks(samples: seq<Sample>, k: nat)
    requires k <= |samples|
    ensures TicksBefore(samples, k) == 30 * TotalMs(samples, k)
  {
    if k > 0 {
      TotalTicks(samples, k - 1);
      assert Ticks(samples[k - 1].ms) == 30 * samples[k - 1].ms;
    }
  }

  // ---- the box structure of the whole file ----

  lemma {:induction false} ReadConcat(a: Text, b: Text, at: nat)
    requires at + 4 <= |a|
    ensures Read32(a + b, at) == Read32(a, at)
  {
  }

  /** Scanning a concatenation scans the first part, then the rest. */
  lemma {:induction false} ScanConcat(a: Text, b: Text, start: nat)
    requires start <= |a| && BoxesIn(a, start, |a|).Some?
    ensures BoxesIn(a + b, start, |a + b|)
         == match BoxesIn(a + b, |a|, |a + b|)
            case None => None
            case Some(rest) => Some(BoxesIn(a, start, |a|).value + rest)
    decreases |a| - start
  {
    hide Read32;
    var all := BoxesIn(a + b, |a|, |a + b|);
    if start == |a| {
      if all.Some? { assert [] + all.value == all.value; }
    } else {
      var size := Read32(a, start);
      ReadConcat(a, b, start);
      ScanConcat(a, b, start + size);
      assert (a + b)[start + 4..start + 8] == a[start + 4..start + 8];
      if all.Some? {
        var head, tail := [Entry(start, size, a[start + 4..start + 8])], BoxesIn(a, start + size, |a|).value;
        assert head + (tail + all.value) == head + tail + all.value;
      }
    }
  }

  /** The fragments from i on, each a moof and an mdat. */
  function FragmentEntries(header: Text, samples: seq<Sample>, i: nat): seq<Entry>
    requires i <= |samples|
    decreases |samples| - i
  {
    if i == |samples| then []
    else
      var at := FragmentStart(header, samples, i);
      [Entry(at, MOOF_SIZE, MOOF), Entry(at + MOOF_SIZE, 8 + |samples[i].xml|, MDAT)]
      + FragmentEntries(header, samples, i + 1)
  }

  /** The child indexes from i on. */
  function ChildEntries(header: Text, samples: seq<Sample>, i: nat): seq<Entry>
    requires i <= |samples|
    decreases |samples| - i
  {
    if i == |samples| then []
    else [Entry(ChildStart(header, samples, i), CHILD_SIZE, SIDX)] + ChildEntries(header, samples, i + 1)
  }

  lemma {:induction false} ScanFragment(data: Text, at: nat, samples: seq<Sample>, i: nat, rest: seq<Entry>)
    requires Packable(samples) && i < |samples| && At(data, at, Fragment(samples, i))
    requires BoxesIn(data, at + FragmentSize(samples[i]), |data|) == Some(rest)
    ensures BoxesIn(data, at, |data|)
         == Some([Entry(at, MOOF_SIZE, MOOF), Entry(at + MOOF_SIZE, 8 + |samples[i].xml|, MDAT)] + rest)
  {
    hide Moof, Ticks, Box, BoxesIn, At, Packable;
    SumsFit(samples, i);
    FragmentFits(samples, i);
    var xml := samples[i].xml;
    var moof := Moof(i + 1, TicksBefore(samples, i), Ticks(samples[i].ms), |xml|);
    AtParts(data, at, moof, Box(MDAT, xml));
    ScanWritten(data, at + 118, |data|, MDAT, xml);
    ScanMoof(data, at, |data|, i + 1, TicksBefore(samples, i), Ticks(samples[i].ms), |xml|);
    var a, b := Entry(at, MOOF_SIZE, MOOF), Entry(at + MOOF_SIZE, 8 + |xml|, MDAT);
    assert [a] + ([b] + rest) == [a, b] + rest;
  }

  lemma {:induction false} FragmentFits(samples: seq<Sample>, i: nat)
    requires Packable(samples) && i < |samples|
    ensures Ticks(samples[i].ms) < U32 && 126 + |samples[i].xml| < U32 && i + 1 < U32
  {
  }

  lemma {:induction false} ScanMoof(data: Text, at: nat, end: nat, number: nat, decodeTicks: nat, duration: nat, size: nat)
    requires number < U32 && decodeTicks < U64 && duration < U32 && size < U32 && at + 118 <= end <= |data|
    requires At(data, at, Moof(number, decodeTicks, duration, size))
    ensures var rest := BoxesIn(data, at + 118, end);
            BoxesIn(data, at, end) == if rest.None? then None else Some([Entry(at, 118, MOOF)] + rest.value)
  {
    hide Box, FullBox, TrackFragment, BoxesIn, At;
    ScanWritten(data, at, end, MOOF,
                FullBox(MFHD, 0, 0, Be32(number)) + Box(TRAF, TrackFragment(decodeTicks, duration, size)));
  }

  lemma {:induction false} ScanSidx(data: Text, at: nat, end: nat, earliest: nat, offset: nat, refs: seq<Reference>)
    requires earliest < U64 && offset < U64 && PackableReferences(refs) && at + 40 + 12 * |refs| <= end <= |data|
    requires At(data, at, Sidx(earliest, offset, refs))
    ensures var rest := BoxesIn(data, at + 40 + 12 * |refs|, end);
            BoxesIn(data, at, end)
            == if rest.None? then None else Some([Entry(at, 40 + 12 * |refs|, SIDX)] + rest.value)
  {
    hide FullBox, SidxPayload, BoxesIn, At;
    ScanFull(data, at, end, SIDX, 1, 0, SidxPayload(earliest, offset, refs));
  }

  lemma {:induction false} ScanFragments(header: Text, samples: seq<Sample>, i: nat)
    requires Packable(samples) && i <= |samples|
    ensures BoxesIn(File(header, samples), FragmentStart(header, samples, i), |File(header, samples)|)
         == Some(FragmentEntries(header, samples, i))
    decreases |samples| - i
  {
    hide File, Fragment, BoxesIn, At, Packable;
    var data := File(header, samples);
    FileParts(header, samples);
    if i == |samples| {
      ScanEnd(data, |data|);
    } else {
      PartsAt(header, samples, i);
      ScanFragments(header, samples, i + 1);
      ScanFragment(data, FragmentStart(header, samples, i), samples, i, FragmentEntries(header, samples, i + 1));
    }
  }

  lemma {:induction false} ScanChild(data: Text, at: nat, samples: seq<Sample>, i: nat, rest: seq<Entry>)
    requires Packable(samples) && i < |samples| && At(data, at, Child(samples, i))
    requires BoxesIn(data, at + CHILD_SIZE, |data|) == Some(rest)
    ensures BoxesIn(data, at, |data|) == Some([Entry(at, CHILD_SIZE, SIDX)] + rest)
  {
    hide Sidx, BoxesIn, Ticks, FragmentSize;
    SumsFit(samples, i);
    ScanSidx(data, at, |data|, TicksBefore(samples, i), (|samples| - i - 1) * CHILD_SIZE + BytesBefore(samples, i),
             [Reference(FragmentSize(samples[i]), Ticks(samples[i].ms))]);
  }

  lemma {:induction false} ScanChildren(header: Text, samples: seq<Sample>, i: nat)
    requires Packable(samples) && i <= |samples|
    ensures BoxesIn(File(header, samples), ChildStart(header, samples, i), |File(header, samples)|)
         == Some(ChildEntries(header, samples, i) + FragmentEntries(header, samples, 0))
    decreases |samples| - i
  {
    hide File, Child, BoxesIn, At, Packable, FragmentEntries;
    var data := File(header, samples);
    var fragments := FragmentEntries(header, samples, 0);
    if i == |samples| {
      ScanFragments(header, samples, 0);
      assert [] + fragments == fragments;
    } else {
      PartsAt(header, samples, i);
      ScanChildren(header, samples, i + 1);
      var rest := ChildEntries(header, samples, i + 1);
      ScanChild(data, ChildStart(header, samples, i), samples, i, rest + fragments);
      var head := [Entry(ChildStart(header, samples, i), CHILD_SIZE, SIDX)];
      assert head + (rest + fragments) == head + rest + fragments;
    }
  }

  /** Behind the header's own boxes the file is the master index, the children, then moof and mdat pairs. */
  lemma {:induction false} FileStructure(header: Text, samples: seq<Sample>)
    requires Packable(samples) && BoxesIn(header, 0, |header|).Some?
    ensures BoxesIn(File(header, samples), 0, |File(header, samples)|)
         == Some(BoxesIn(header, 0, |header|).value
                 + ([Entry(|header|, 40 + 12 * |samples|, SIDX)]
                    + (ChildEntries(header, samples, 0) + FragmentEntries(header, samples, 0))))
  {
    hide BoxesIn, At, Packable, FragmentEntries, ChildEntries, Sidx, Children, Fragments;
    var data := File(header, samples);
    var rest := Master(samples) + (Children(samples, |samples|) + Fragments(samples, |samples|));
    ScanConcat(header, rest, 0);
    FileParts(header, samples);
    ScanChildren(header, samples, 0);
    ScanSidx(data, |header|, |data|, 0, 0, MasterReferences(samples));
  }
}
