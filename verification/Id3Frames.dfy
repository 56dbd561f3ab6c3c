/** What a parsed ID3v2.3 tag says, frame by frame and by the four letters that name each frame. */
module Id3Frames {
  import opened Bytes
  import opened Utf8
  import opened Id3Text
  import opened Id3Tag
  import Boxes

  predicate Spells(t: Text, s: string) {
    |t| == |s| && forall i :: 0 <= i < |s| ==> t[i] == s[i] as int
  }

  /** The frame identifiers of the ID3v2.3 standard. */
  function IdOf(k: Kind): string {
    match k
    case Title => "TIT2"
    case Artist => "TPE1"
    case Album => "TALB"
    case AlbumArtist => "TPE2"
    case Genre => "TCON"
    case Track => "TRCK"
    case Picture => "APIC"
    case Other => ""
  }

  lemma {:induction false} KindById(id: Text, k: Kind)
    requires |id| == 4 && k != Other
    ensures KindOf(id) == k <==> Spells(id, IdOf(k))
  {
    var s := IdOf(k);
    assert s[0] as int == Letters(k)[0] && s[1] as int == Letters(k)[1] && s[2] as int == Letters(k)[2] && s[3] as int == Letters(k)[3];
    assert Spells(id, s) <==> id == Letters(k);
    hide Spells;
    LettersDecide(id, k);
  }

  function Letters(k: Kind): (t: Text)
    ensures |t| == 4
  {
    match k
    case Title => [84, 73, 84, 50]
    case Artist => [84, 80, 69, 49]
    case Album => [84, 65, 76, 66]
    case AlbumArtist => [84, 80, 69, 50]
    case Genre => [84, 67, 79, 78]
    case Track => [84, 82, 67, 75]
    case Picture => [65, 80, 73, 67]
    case Other => [0, 0, 0, 0]
  }

  lemma {:induction false} LettersDecide(id: Text, k: Kind)
    requires |id| == 4 && k != Other
    ensures KindOf(id) == k <==> id == Letters(k)
  {
  }

  // ---- where the frames stand ----

  /** Frame f of the tag: its size is the big-endian number behind its identifier, its flags are zero. */
  predicate FrameFits(d: Text, f: Frame) {
    && f.at + 10 + f.size <= |d| && f.size > 0 && Boxes.Read32(d, f.at + 4) == f.size && d[f.at + 8] == 0 && d[f.at + 9] == 0
    && forall k :: k != Other ==> (f.kind == k <==> Spells(d[f.at..f.at + 4], IdOf(k)))
  }

  /** The frames stand one behind the other, up to the padding or to where no header fits any more. */
  predicate Chained(d: Text, fs: seq<Frame>, at: nat, end: nat)
    requires end <= |d|
  {
    if fs == [] then at + 10 > end || Padding(d, at)
    else fs[0].at == at && FrameFits(d, fs[0]) && Chained(d, fs[1..], at + 10 + fs[0].size, end)
  }

  lemma {:induction false} FrameIsThere(d: Text, at: nat, end: nat)
    requires at + 10 <= end <= |d| && FrameAt(d, at, end).Some?
    ensures FrameFits(d, FrameAt(d, at, end).value)
  {
    forall k: Kind | k != Other ensures KindOf(d[at..at + 4]) == k <==> Spells(d[at..at + 4], IdOf(k)) {
      KindById(d[at..at + 4], k);
    }
    hide Spells, IdOf, KindOf;
  }

  /** The frames that are read are the ones that stand in the tag. */
  lemma {:induction false} FramesChain(d: Text, at: nat, end: nat)
    requires at <= end <= |d| && Frames(d, at, end).Some?
    ensures Chained(d, Frames(d, at, end).value, at, end)
    decreases end - at
  {
    hide FrameAt, Padding, FrameFits;
    if at + 10 <= end && !Padding(d, at) {
      var f := FrameAt(d, at, end).value;
      FrameIsThere(d, at, end);
      FramesChain(d, at + 10 + f.size, end);
      var rest := Frames(d, at + 10 + f.size, end).value;
      assert ([f] + rest)[1..] == rest;
    }
  }

  // ---- track and cover ----

  lemma {:induction false} LastOfMore(f: Frame, rest: seq<Frame>, k: Kind)
    ensures LastFrame([f] + rest, k)
         == if LastFrame(rest, k).Some? then LastFrame(rest, k) else if f.kind == k then Some(f) else None
  {
    var all := [f] + rest;
    if rest == [] {
      assert all == [f] && all[..0] == [];
    } else {
      var n := |rest| - 1;
      assert all[|all| - 1] == rest[n] && all[..|all| - 1] == [f] + rest[..n];
      LastOfMore(f, rest[..n], k);
    }
  }

  /** The track is the number in the last track frame, or `otherwise` without one. */
  predicate TrackHeld(d: Text, fs: seq<Frame>, otherwise: nat, track: nat) {
    match LastFrame(fs, Track)
    case None => track == otherwise
    case Some(f) => f.at + 10 + f.size <= |d| && TrackIs(Payload(d, f), track)
  }

  predicate TrackIs(p: Text, track: nat) { FrameText(p, 32).Some? && TrackOf(FrameText(p, 32).value) == Some(track) }

  /** The first frame that holds a usable cover. */
  function FirstCover(d: Text, fs: seq<Frame>): Option<Cover>
    requires forall i :: 0 <= i < |fs| ==> fs[i].at + 10 + fs[i].size <= |d|
  {
    if fs == [] then None
    else if fs[0].kind == Picture && CoverOf(Payload(d, fs[0]), fs[0].at + 10).Some? then CoverOf(Payload(d, fs[0]), fs[0].at + 10)
    else FirstCover(d, fs[1..])
  }

  lemma {:induction false} ApplyTrack(d: Text, f: Frame, t: Tags)
    requires f.at + 10 + f.size <= |d| && Apply(d, f, t).Some?
    ensures var r := Apply(d, f, t).value;
            && (if f.kind == Track then TrackIs(Payload(d, f), r.track) else r.track == t.track)
            && r.cover == if f.kind == Picture && t.cover.None? then CoverOf(Payload(d, f), f.at + 10) else t.cover
  {
    hide FrameText, TrackOf, CoverOf, Payload;
  }

  lemma {:induction false} InsideData(d: Text, fs: seq<Frame>, end: nat)
    requires AllInside(d, fs, end)
    ensures forall i :: 0 <= i < |fs| ==> fs[i].at + 10 + fs[i].size <= |d|
  {
    forall i | 0 <= i < |fs| ensures fs[i].at + 10 + fs[i].size <= |d| { assert Inside(d, fs[i], end); }
  }

  lemma {:induction false} TrackAndCoverRead(d: Text, at: nat, end: nat, t: Tags)
    requires at <= end <= |d| && ReadFrames(d, at, end, t).Some?
    ensures Frames(d, at, end).Some?
    ensures var fs, r := Frames(d, at, end).value, ReadFrames(d, at, end, t).value;
            && (forall i :: 0 <= i < |fs| ==> fs[i].at + 10 + fs[i].size <= |d|)
            && TrackHeld(d, fs, t.track, r.track)
            && r.cover == if t.cover.Some? then t.cover else FirstCover(d, fs)
    decreases end - at
  {
    hide FrameAt, Padding, Apply, TrackIs, CoverOf, Payload;
    if at + 10 <= end && !Padding(d, at) {
      var f := FrameAt(d, at, end).value;
      var t' := Apply(d, f, t).value;
      TrackAndCoverRead(d, at + 10 + f.size, end, t');
      ApplyTrack(d, f, t);
      var rest := Frames(d, at + 10 + f.size, end).value;
      LastOfMore(f, rest, Track);
      InsideData(d, [f] + rest, end);
      assert ([f] + rest)[1..] == rest;
    }
  }

  /**
    On success the frames stand one behind the other in the tag, each known by its four letters; the track is
    the number of the last TRCK frame, or 0 without one, and the cover is the first usable picture of an APIC
    frame.
   */
  lemma {:induction false} TagsComeFromFrames(d: Text)
    requires Parsed(d).Some?
    ensures HeaderOk(d) && Frames(d, 10, 10 + TagSize(d)).Some?
    ensures var fs := Frames(d, 10, 10 + TagSize(d)).value;
            && Chained(d, fs, 10, 10 + TagSize(d))
            && (forall i :: 0 <= i < |fs| ==> fs[i].at + 10 + fs[i].size <= |d|)
            && TrackHeld(d, fs, 0, Parsed(d).value.track)
            && Parsed(d).value.cover == FirstCover(d, fs)
  {
    hide ReadFrames, Frames, TrackHeld, FirstCover, Chained;
    TrackAndCoverRead(d, 10, 10 + TagSize(d), NO_TAGS);
    FramesChain(d, 10, 10 + TagSize(d));
  }

  /** A tag is accepted exactly if its header is right, all its frames can be read, and title and artist are there. */
  lemma {:induction false} AcceptedExactly(d: Text)
    ensures Parsed(d).Some? <==>
              && HeaderOk(d) && ReadFrames(d, 10, 10 + TagSize(d), NO_TAGS).Some?
              && Frames(d, 10, 10 + TagSize(d)).Some?
              && LastFrame(Frames(d, 10, 10 + TagSize(d)).value, Title).Some?
              && LastFrame(Frames(d, 10, 10 + TagSize(d)).value, Artist).Some?
  {
    hide ReadFrames, Frames, LastFrame, LastText, HoldsFrame;
    if HeaderOk(d) && ReadFrames(d, 10, 10 + TagSize(d), NO_TAGS).Some? {
      var end := 10 + TagSize(d);
      var raw := ReadFrames(d, 10, end, NO_TAGS).value;
      TextsComeFromFrames(d, 10, end, NO_TAGS, Title);
      TextsComeFromFrames(d, 10, end, NO_TAGS, Artist);
      var fs := Frames(d, 10, end).value;
      LastTextMeans(d, end, fs, Title, raw.title);
      LastTextMeans(d, end, fs, Artist, raw.artist);
      HeldText(d, end, fs, Title, raw.title);
      HeldText(d, end, fs, Artist, raw.artist);
    }
  }
}
