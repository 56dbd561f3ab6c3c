/** `patch_moov` and `build`: the template header, edited in place, in front of index and fragments. */
module M4tBuild {
  import opened Bytes
  import opened Boxes
  import opened SegmentIndex
  import opened M4tFile

  const MVHD: Name := [109, 118, 104, 100]
  const TRAK: Name := [116, 114, 97, 107]
  const TKHD: Name := [116, 107, 104, 100]
  const MDIA: Name := [109, 100, 105, 97]
  const MDHD: Name := [109, 100, 104, 100]
  const MVEX: Name := [109, 118, 101, 120]
  const MEHD: Name := [109, 101, 104, 100]
  const STPP: Text := [115, 116, 112, 112]
  const SMPTE_TT: Text := [115, 109, 112, 116, 101, 45, 116, 116]

  /** Three lowercase letters, five bits each. */
  function Iso639(language: Text): (r: Option<nat>)
    ensures r.Some? ==> r.value < U16
  {
    if |language| != 3 || exists i :: 0 <= i < 3 && !(97 <= language[i] <= 122) then None
    else Some((language[0] - 96) as int * 1024 + (language[1] - 96) as int * 32 + (language[2] - 96) as int)
  }

  /** `pack_into`: None stands for the error of writing past the end. */
  function Put(data: Text, at: nat, bytes: Text): (r: Option<Text>)
    ensures r.Some? <==> at + |bytes| <= |data|
    ensures r.Some? ==> |r.value| == |data|
  {
    if at + |bytes| > |data| then None else Some(data[..at] + bytes + data[at + |bytes|..])
  }

  lemma {:induction false} PutAt(data: Text, at: nat, bytes: Text)
    requires at + |bytes| <= |data|
    ensures var r := Put(data, at, bytes).value;
            At(r, at, bytes) && forall i :: 0 <= i < |data| && !(at <= i < at + |bytes|) ==> r[i] == data[i]
  {
  }

  const ZERO8: Text := [0, 0, 0, 0, 0, 0, 0, 0]

  predicate Occurs(data: Text, part: Text) {
    exists i :: 0 <= i <= |data| && At(data, i, part)
  }

  datatype Look = Look(width: nat, height: nat, language: Text)

  /** The presentation size in the track header. */
  function PatchSize(moov: Text, trak: Entry, look: Look): (r: Option<Text>)
    requires trak.offset + trak.size <= |moov|
    ensures r.Some? ==> |r.value| == |moov|
  {
    var tkhd :- OneBox(moov, TKHD, trak.offset + 8, trak.offset + trak.size);
    var m1 :- Put(moov, tkhd.offset + 12, ZERO8);
    if look.width >= U16 || look.height >= U16 then None
    else Put(m1, tkhd.offset + tkhd.size - 8, Be32(look.width * U16) + Be32(look.height * U16))
  }

  /** The track's media header. */
  function PatchMedia(moov: Text, trak: Entry, look: Look): Option<Text>
    requires trak.offset + trak.size <= |moov|
  {
    var mdia :- OneBox(moov, MDIA, trak.offset + 8, trak.offset + trak.size);
    var mdhd :- OneBox(moov, MDHD, mdia.offset + 8, mdia.offset + mdia.size);
    if mdhd.offset + 8 >= |moov| || moov[mdhd.offset + 8] != 0 then None else
      var m1 :- Put(moov, mdhd.offset + 12, ZERO8);
      var packed :- Iso639(look.language);
      Put(m1, mdhd.offset + 28, Be16(packed))
  }

  function PatchTrack(moov: Text, look: Look): Option<Text> {
    var trak :- OneBox(moov, TRAK, 8, |moov|);
    var sized :- PatchSize(moov, trak, look);
    PatchMedia(sized, trak, look)
  }

  /** The fragment duration; `at` is where it was written. */
  function PatchDuration(moov: Text, ticks: nat): Option<(Text, nat)>
    requires ticks < U64
  {
    var mvex :- OneBox(moov, MVEX, 8, |moov|);
    var mehd :- OneBox(moov, MEHD, mvex.offset + 8, mvex.offset + mvex.size);
    if mehd.offset + 8 >= |moov| || moov[mehd.offset + 8] != 1 then None else
      var patched :- Put(moov, mehd.offset + 12, Be64(ticks));
      Some((patched, mehd.offset + 12))
  }

  function PatchMoov(moov: Text, ticks: nat, look: Look): Option<(Text, nat)>
    requires ticks < U64
  {
    var mvhd :- OneBox(moov, MVHD, 8, |moov|);
    var m1 :- Put(moov, mvhd.offset + 12, ZERO8);
    var m2 :- PatchTrack(m1, look);
    var m3 :- PatchDuration(m2, ticks);
    if Occurs(m3.0, STPP) && Occurs(m3.0, SMPTE_TT) then Some(m3) else None
  }

  /** Same length, same box header. */
  predicate SameBox(a: Text, b: Text) {
    |a| == |b| && forall i :: 0 <= i < 8 && i < |a| ==> a[i] == b[i]
  }

  lemma {:induction false} PutKeepsBox(data: Text, at: nat, bytes: Text)
    requires at >= 8 && Put(data, at, bytes).Some?
    ensures SameBox(data, Put(data, at, bytes).value)
  {
    PutAt(data, at, bytes);
  }

  lemma {:induction false} SameBoxTrans(a: Text, b: Text, c: Text)
    requires SameBox(a, b) && SameBox(b, c)
    ensures SameBox(a, c)
  {
  }

  lemma {:induction false} SameLength(a: Text, b: Text)
    requires SameBox(a, b)
    ensures |a| == |b|
  {
  }

  /** The two edits of the track header. */
  lemma {:induction false} PatchSizeKeepsBox(moov: Text, at: nat, size: nat, bytes: Text)
    requires 8 <= at && 16 <= at + size && Put(moov, at + 12, ZERO8).Some?
    requires Put(Put(moov, at + 12, ZERO8).value, at + size - 8, bytes).Some?
    ensures SameBox(moov, Put(Put(moov, at + 12, ZERO8).value, at + size - 8, bytes).value)
  {
    hide Put, SameBox;
    var m1 := Put(moov, at + 12, ZERO8).value;
    PutKeepsBox(moov, at + 12, ZERO8);
    PutKeepsBox(m1, at + size - 8, bytes);
    SameBoxTrans(moov, m1, Put(m1, at + size - 8, bytes).value);
  }

  /** The two edits of the media header. */
  lemma {:induction false} PatchMediaKeepsBox(moov: Text, at: nat, bytes: Text)
    requires 8 <= at && Put(moov, at + 12, ZERO8).Some?
    requires Put(Put(moov, at + 12, ZERO8).value, at + 28, bytes).Some?
    ensures SameBox(moov, Put(Put(moov, at + 12, ZERO8).value, at + 28, bytes).value)
  {
    hide Put, SameBox;
    var m1 := Put(moov, at + 12, ZERO8).value;
    PutKeepsBox(moov, at + 12, ZERO8);
    PutKeepsBox(m1, at + 28, bytes);
    SameBoxTrans(moov, m1, Put(m1, at + 28, bytes).value);
  }

  lemma {:induction false} SizeKeepsBox(moov: Text, trak: Entry, look: Look)
    requires trak.offset + trak.size <= |moov| && PatchSize(moov, trak, look).Some?
    ensures SameBox(moov, PatchSize(moov, trak, look).value)
  {
    hide OneBox, Be32, Put, SameBox;
    OffsetInside(moov, TKHD, trak.offset + 8, trak.offset + trak.size);
    var tkhd := OneBox(moov, TKHD, trak.offset + 8, trak.offset + trak.size).value;
    PatchSizeKeepsBox(moov, tkhd.offset, tkhd.size, Be32(look.width * U16) + Be32(look.height * U16));
  }

  lemma {:induction false} MediaKeepsBox(moov: Text, trak: Entry, look: Look)
    requires trak.offset + trak.size <= |moov| && PatchMedia(moov, trak, look).Some?
    ensures SameBox(moov, PatchMedia(moov, trak, look).value)
  {
    hide OneBox, Be16, Iso639, Put, SameBox;
    OffsetInside(moov, MDIA, trak.offset + 8, trak.offset + trak.size);
    var mdia := OneBox(moov, MDIA, trak.offset + 8, trak.offset + trak.size).value;
    OffsetInside(moov, MDHD, mdia.offset + 8, mdia.offset + mdia.size);
    var mdhd := OneBox(moov, MDHD, mdia.offset + 8, mdia.offset + mdia.size).value;
    PatchMediaKeepsBox(moov, mdhd.offset, Be16(Iso639(look.language).value));
  }

  lemma {:induction false} PatchTrackKeepsBox(moov: Text, look: Look)
    requires PatchTrack(moov, look).Some?
    ensures SameBox(moov, PatchTrack(moov, look).value)
  {
    hide OneBox, PatchSize, PatchMedia, SameBox;
    var trak := OneBox(moov, TRAK, 8, |moov|).value;
    var sized := PatchSize(moov, trak, look).value;
    SizeKeepsBox(moov, trak, look);
    MediaKeepsBox(sized, trak, look);
    SameBoxTrans(moov, sized, PatchTrack(moov, look).value);
  }

  lemma {:induction false} OffsetInside(data: Text, name: Name, start: nat, end: nat)
    requires end <= |data| && OneBox(data, name, start, end).Some?
    ensures var e := OneBox(data, name, start, end).value;
            start <= e.offset && 8 <= e.size && e.offset + e.size <= end
  {
  }

  /** Patching keeps the length and the header of the moov box, and ends with the duration in place. */
  lemma {:induction false} PatchKeepsBox(moov: Text, ticks: nat, look: Look)
    requires ticks < U64 && PatchMoov(moov, ticks, look).Some?
    ensures var (patched, at) := PatchMoov(moov, ticks, look).value;
            && SameBox(moov, patched)
            && 8 <= at && at + 8 <= |patched| && Read64(patched, at) == ticks
  {
    hide OneBox, Be64, Inside, Occurs, PatchTrack, Put, SameBox;
    OffsetInside(moov, MVHD, 8, |moov|);
    var mvhd := OneBox(moov, MVHD, 8, |moov|).value;
    var m1 := Put(moov, mvhd.offset + 12, ZERO8).value;
    PutKeepsBox(moov, mvhd.offset + 12, ZERO8);
    PatchTrackKeepsBox(m1, look);
    var m2 := PatchTrack(m1, look).value;
    OffsetInside(m2, MVEX, 8, |m2|);
    var mvex := OneBox(m2, MVEX, 8, |m2|).value;
    OffsetInside(m2, MEHD, mvex.offset + 8, mvex.offset + mvex.size);
    var (patched, at) := PatchDuration(m2, ticks).value;
    PutAt(m2, at, Be64(ticks));
    PutKeepsBox(m2, at, Be64(ticks));
    Read64At(patched, at, ticks);
    SameBoxTrans(moov, m1, m2);
    SameBoxTrans(moov, m2, patched);
  }

  // ---- patching in place ----

  /** `pack_into` on the bytearray; false stands for its error, which writes nothing. */
  method PutInPlace(data: array<byte>, at: nat, bytes: Text) returns (ok: bool)
    modifies data
    ensures ok == Put(old(data[..]), at, bytes).Some?
    ensures data[..] == if ok then Put(old(data[..]), at, bytes).value else old(data[..])
  {
    if at + |bytes| > data.Length { return false; }
    ghost var was := data[..];
    for i := 0 to |bytes|
      invariant data[..at + i] == was[..at] + bytes[..i] && data[at + i..] == was[at + i..]
    {
      ghost var front, back := data[..at + i], data[at + i..];
      data[at + i] := bytes[i];
      assert data[..at + i + 1] == front + [bytes[i]] && data[at + i + 1..] == back[1..];
      assert bytes[..i + 1] == bytes[..i] + [bytes[i]] && was[at + i..][1..] == was[at + i + 1..];
    }
    ghost var end := at + |bytes|;
    assert data[..] == data[..end] + data[end..];
    ok := true;
  }

  method PatchSizeInPlace(moov: array<byte>, trak: Entry, look: Look) returns (ok: bool)
    requires trak.offset + trak.size <= moov.Length
    modifies moov
    ensures ok == PatchSize(old(moov[..]), trak, look).Some?
    ensures ok ==> moov[..] == PatchSize(old(moov[..]), trak, look).value
  {
    hide OneBox, Put, Be32, Inside;
    var tkhd := OneBox(moov[..], TKHD, trak.offset + 8, trak.offset + trak.size);
    if tkhd.None? { return false; }
    BoxEnd(moov[..], TKHD, trak.offset + 8, trak.offset + trak.size);
    ok := PutInPlace(moov, tkhd.value.offset + 12, ZERO8);
    if !ok { return; }
    if look.width >= U16 || look.height >= U16 { return false; }
    ok := PutInPlace(moov, tkhd.value.offset + tkhd.value.size - 8, Be32(look.width * U16) + Be32(look.height * U16));
  }

  method PatchMediaInPlace(moov: array<byte>, trak: Entry, look: Look) returns (ok: bool)
    requires trak.offset + trak.size <= moov.Length
    modifies moov
    ensures ok == PatchMedia(old(moov[..]), trak, look).Some?
    ensures ok ==> moov[..] == PatchMedia(old(moov[..]), trak, look).value
  {
    hide OneBox, Put, Be16, Iso639, Inside;
    var mdia := OneBox(moov[..], MDIA, trak.offset + 8, trak.offset + trak.size);
    if mdia.None? { return false; }
    BoxEnd(moov[..], MDIA, trak.offset + 8, trak.offset + trak.size);
    var mdhd := OneBox(moov[..], MDHD, mdia.value.offset + 8, mdia.value.offset + mdia.value.size);
    if mdhd.None? || mdhd.value.offset + 8 >= moov.Length || moov[mdhd.value.offset + 8] != 0 { return false; }
    ok := PutInPlace(moov, mdhd.value.offset + 12, ZERO8);
    if !ok { return; }
    var packed := Iso639(look.language);
    if packed.None? { return false; }
    ok := PutInPlace(moov, mdhd.value.offset + 28, Be16(packed.value));
  }

  method PatchTrackInPlace(moov: array<byte>, look: Look) returns (ok: bool)
    modifies moov
    ensures ok == PatchTrack(old(moov[..]), look).Some?
    ensures ok ==> moov[..] == PatchTrack(old(moov[..]), look).value
  {
    hide OneBox, PatchSize, PatchMedia;
    var trak := OneBox(moov[..], TRAK, 8, moov.Length);
    if trak.None? { return false; }
    BoxEnd(moov[..], TRAK, 8, moov.Length);
    ok := PatchSizeInPlace(moov, trak.value, look);
    if !ok { return; }
    ok := PatchMediaInPlace(moov, trak.value, look);
  }

  lemma {:induction false} BoxEnd(data: Text, name: Name, start: nat, end: nat)
    requires end <= |data| && OneBox(data, name, start, end).Some?
    ensures var e := OneBox(data, name, start, end).value; 8 <= e.size && e.offset + e.size <= |data|
  {
    OffsetInside(data, name, start, end);
  }

  method FindText(data: Text, part: Text) returns (found: bool)
    ensures found == Occurs(data, part)
  {
    hide At;
    for i := 0 to |data| + 1
      invariant forall k :: 0 <= k < i ==> !At(data, k, part)
    {
      if At(data, i, part) { return true; }
    }
    found := false;
  }

  /** `patch_moov` on the bytearray computes the patched box, or fails exactly when there is none. */
  method PatchMoovInPlace(moov: array<byte>, ticks: nat, look: Look) returns (ok: bool)
    requires ticks < U64
    modifies moov
    ensures ok == PatchMoov(old(moov[..]), ticks, look).Some?
    ensures ok ==> moov[..] == PatchMoov(old(moov[..]), ticks, look).value.0
  {
    hide OneBox, Put, PatchTrack, Be64, Occurs;
    var mvhd := OneBox(moov[..], MVHD, 8, moov.Length);
    if mvhd.None? { return false; }
    ok := PutInPlace(moov, mvhd.value.offset + 12, ZERO8);
    if !ok { return; }
    ok := PatchTrackInPlace(moov, look);
    if !ok { return; }
    ok := PatchDurationInPlace(moov, ticks);
    if !ok { return; }
    var sample := FindText(moov[..], STPP);
    var profile := FindText(moov[..], SMPTE_TT);
    ok := sample && profile;
  }

  method PatchDurationInPlace(moov: array<byte>, ticks: nat) returns (ok: bool)
    requires ticks < U64
    modifies moov
    ensures ok == PatchDuration(old(moov[..]), ticks).Some?
    ensures ok ==> moov[..] == PatchDuration(old(moov[..]), ticks).value.0
  {
    hide OneBox, Put, Be64;
    var mvex := OneBox(moov[..], MVEX, 8, moov.Length);
    if mvex.None? { return false; }
    BoxEnd(moov[..], MVEX, 8, moov.Length);
    var mehd := OneBox(moov[..], MEHD, mvex.value.offset + 8, mvex.value.offset + mvex.value.size);
    if mehd.None? || mehd.value.offset + 8 >= moov.Length || moov[mehd.value.offset + 8] != 1 { return false; }
    ok := PutInPlace(moov, mehd.value.offset + 12, Be64(ticks));
  }

  /** `build`, from a template whose first two boxes are an ftyp and a moov; None is any exception. */
  function Build(template: Text, samples: seq<Sample>, look: Look): Option<Text> {
    var ftyp :- OneBox(template, FTYP, 0, |template|);
    var moov :- OneBox(template, MOOV, 0, |template|);
    if ftyp.offset != 0 || moov.offset != ftyp.size || !Packable(samples) then None else
      SumsFit(samples, |samples|);
      var patched :- PatchMoov(template[moov.offset..moov.offset + moov.size], TicksBefore(samples, |samples|), look);
      Some(File(template[..ftyp.size] + patched.0, samples))
  }

  lemma {:induction false} HeaderScan(header: Text, split: nat)
    requires 8 <= split && split + 8 <= |header|
    requires Read32(header, 0) == split && Read32(header, split) == |header| - split
    ensures BoxesIn(header, 0, |header|)
         == Some([Entry(0, split, header[4..8]), Entry(split, |header| - split, header[split + 4..split + 8])])
  {
    hide Read32;
    ScanEnd(header, |header|);
    var a, b := Entry(0, split, header[4..8]), Entry(split, |header| - split, header[split + 4..split + 8]);
    assert BoxesIn(header, split, |header|) == Some([b]) by { assert [b] + [] == [b]; }
    assert [a] + [b] == [a, b];
  }

  lemma {:induction false} HeaderIsTwoBoxes(template: Text, patched: Text, ftyp: Entry, moov: Entry)
    requires Inside(template, ftyp, 0, |template|) && Inside(template, moov, 0, |template|)
    requires ftyp.offset == 0 && moov.offset == ftyp.size && ftyp.name == FTYP && moov.name == MOOV
    requires SameBox(template[moov.offset..moov.offset + moov.size], patched)
    ensures var header := template[..ftyp.size] + patched;
            BoxesIn(header, 0, |header|) == Some([Entry(0, ftyp.size, FTYP), Entry(ftyp.size, moov.size, MOOV)])
  {
    hide BoxesIn, Read32;
    var header := template[..ftyp.size] + patched;
    HeaderBytes(template, patched, ftyp.size, moov.size);
    SameWord(header, template, 0);
    SameWord(header, template, ftyp.size);
    HeaderScan(header, ftyp.size);
  }

  /** The header keeps the template's first two box headers. */
  lemma {:induction false} HeaderBytes(template: Text, patched: Text, split: nat, size: nat)
    requires 8 <= split && 8 <= size && split + size <= |template|
    requires SameBox(template[split..split + size], patched)
    ensures var header := template[..split] + patched;
            && |header| == split + size
            && (forall i :: 0 <= i < 8 ==> header[i] == template[i])
            && (forall i :: split <= i < split + 8 ==> header[i] == template[i])
            && header[4..8] == template[4..8]
            && header[split + 4..split + 8] == template[split + 4..split + 8]
  {
    var header := template[..split] + patched;
    var box := template[split..split + size];
    forall i | split <= i < split + 8 ensures header[i] == template[i] {
      assert header[i] == patched[i - split] == box[i - split];
    }
  }

  lemma {:induction false} SameWord(a: Text, b: Text, at: nat)
    requires at + 4 <= |a| && at + 4 <= |b| && forall i :: at <= i < at + 4 ==> a[i] == b[i]
    ensures Read32(a, at) == Read32(b, at)
  {
  }

  /** Through the index every document is reached, with its time, duration and size. */
  ghost predicate AllReached(header: Text, samples: seq<Sample>)
    requires Packable(samples)
  {
    forall i :: 0 <= i < |samples| ==>
      var child := FollowMaster(File(header, samples), |header|, i);
      child.Some? && Agrees(File(header, samples), child.value, samples[i], TicksBefore(samples, i),
                            FragmentStart(header, samples, i))
  }

  /** ftyp, moov, the master index, the child indexes, then pairs of moof and mdat. */
  ghost predicate Structured(header: Text, samples: seq<Sample>, ftypSize: nat, moovSize: nat)
    requires Packable(samples)
  {
    && |header| == ftypSize + moovSize
    && BoxesIn(File(header, samples), 0, |File(header, samples)|)
       == Some([Entry(0, ftypSize, FTYP), Entry(ftypSize, moovSize, MOOV)]
               + ([Entry(|header|, 40 + 12 * |samples|, SIDX)]
                  + (ChildEntries(header, samples, 0) + FragmentEntries(header, samples, 0))))
  }

  /** The moov between `start` and `end` holds the duration where the patch found the mehd's field. */
  ghost predicate HoldsDuration(data: Text, start: nat, end: nat, ticks: nat) {
    exists at :: start + 8 <= at && at + 8 <= end && DurationAt(data, at, ticks)
  }

  predicate DurationAt(data: Text, at: nat, ticks: nat) { at + 8 <= |data| && Read64(data, at) == ticks }

  ghost predicate IsM4t(data: Text, header: Text, samples: seq<Sample>, ftypSize: nat, moovSize: nat) {
    && Packable(samples) && data == File(header, samples)
    && Structured(header, samples, ftypSize, moovSize) && AllReached(header, samples)
    && HoldsDuration(data, ftypSize, ftypSize + moovSize, 30 * TotalMs(samples, |samples|))
  }

  lemma {:induction false} ReachedThroughIndex(header: Text, samples: seq<Sample>)
    requires Packable(samples)
    ensures AllReached(header, samples)
  {
    hide Packable, File, FollowMaster, Agrees;
    forall i | 0 <= i < |samples|
      ensures var child := FollowMaster(File(header, samples), |header|, i);
              child.Some? && Agrees(File(header, samples), child.value, samples[i], TicksBefore(samples, i),
                                    FragmentStart(header, samples, i))
    {
      IndexLeadsToDocument(header, samples, i);
    }
  }

  lemma {:induction false} Read64Inside(before: Text, data: Text, after: Text, at: nat)
    requires at + 8 <= |data|
    ensures Read64(before + data + after, |before| + at) == Read64(data, at)
  {
    var all := before + data + after;
    assert forall i :: 0 <= i < |data| ==> all[|before| + i] == data[i];
  }

  lemma {:induction false} DurationInFile(header: Text, samples: seq<Sample>, front: Text, patched: Text, at: nat, ticks: nat)
    requires Packable(samples) && header == front + patched && 8 <= at && at + 8 <= |patched| && Read64(patched, at) == ticks
    ensures HoldsDuration(File(header, samples), |front|, |header|, ticks)
  {
    hide Read64, Packable, Master, Children, Fragments;
    var after := Master(samples) + (Children(samples, |samples|) + Fragments(samples, |samples|));
    assert File(header, samples) == front + patched + after;
    Read64Inside(front, patched, after, at);
    assert DurationAt(File(header, samples), |front| + at, ticks);
  }

  /**
    Every successful build is ftyp, moov, n + 1 index boxes and n pairs of moof and mdat, whatever
    the template held inside its moov. Each document is reached through the index, and the header
    holds a duration of thirty ticks per millisecond.
   */
  lemma {:induction false} BuildIsIndexed(template: Text, samples: seq<Sample>, look: Look)
    requires Build(template, samples, look).Some?
    ensures exists header, ftypSize, moovSize :: IsM4t(Build(template, samples, look).value, header, samples, ftypSize, moovSize)
  {
    hide OneBox, BoxesIn, File, PatchMoov, SameBox, ChildEntries, FragmentEntries, AllReached, HoldsDuration;
    var ftyp := OneBox(template, FTYP, 0, |template|).value;
    var moov := OneBox(template, MOOV, 0, |template|).value;
    var total := TicksBefore(samples, |samples|);
    SumsFit(samples, |samples|);
    var box := template[moov.offset..moov.offset + moov.size];
    PatchKeepsBox(box, total, look);
    var (patched, at) := PatchMoov(box, total, look).value;
    var header := template[..ftyp.size] + patched;
    HeaderIsTwoBoxes(template, patched, ftyp, moov);
    FileStructure(header, samples);
    SameLength(box, patched);
    assert Structured(header, samples, ftyp.size, moov.size);
    hide Structured;
    ReachedThroughIndex(header, samples);
    TotalTicks(samples, |samples|);
    DurationInFile(header, samples, template[..ftyp.size], patched, at, total);
    assert IsM4t(Build(template, samples, look).value, header, samples, ftyp.size, moov.size);
  }
}
