/** What holds in every run of the import protocol, and the runs that show its limits. */
module ImportSafety {
  import opened ImportProtocol

  // ---- starts that nothing undid ----

  /**
    A vendor export that began has taken the upload out of the inbox, and an insert that began has
    taken it away or left the song behind. Only a power loss, a song moved back after a failed insert,
    or a failed check of the song makes another start possible.
   */
  predicate Once(s: State) {
    match s.kind
    case Vendor => !s.phase.WithSong? && (s.losses == 0 ==> OnceStaged(s))
    case Mp3 => !s.phase.Stage? && (Undisturbed(s) ==> OnceInserted(s))
  }

  predicate OnceStaged(s: State) {
    var f := s.disk.files;
    && s.started <= 1 && (s.started > 0 ==> !f.inbox)
    && (s.phase == Stage(WriteExporting) || s.phase == Stage(LoadExporter) ==> !f.inbox && s.started == 0)
  }

  predicate OnceInserted(s: State) {
    var f := s.disk.files;
    && s.started <= 1 && (s.started > 0 ==> !(f.inbox && f.song.NoSong?))
    && (s.phase.WithSong? ==>
          match s.phase.song
          case FindSource => f.song.NoSong?
          case Move => f.song.NoSong? && f.inbox
          case Copy => f.song.NoSong? && f.inbox
          case Sync(_) => f.song.WholeSong? && s.started == 0
          case _ => true)
  }

  predicate Undisturbed(s: State) { s.losses == 0 && s.restores == 0 && s.songMisses == 0 }

  lemma {:induction false} OnceInitially(kind: Kind)
    ensures Once(Initial(kind))
  {
  }

  lemma {:induction false} OnceSong(s: State, g: SongStep)
    requires Once(s) && s.phase == WithSong(g)
    ensures Once(SucceedSong(s, g))
  {
  }

  lemma {:induction false} OnceSongFails(s: State, g: SongStep, code: int)
    requires Once(s) && s.phase == WithSong(g)
    ensures Once(FailSong(s, g, code))
  {
  }

  lemma {:induction false} OnceStage(s: State, t: StageStep, code: int)
    requires Once(s) && s.phase == Stage(t)
    ensures Once(SucceedStage(s, t)) && Once(Fail(s, Code(code)))
  {
  }

  /** Outside staging and the song, an effect that keeps upload and song keeps the rest. */
  lemma {:induction false} OnceElsewhere(s: State, r: State)
    requires Once(s) && r.kind == s.kind && r.started == s.started && r.losses == s.losses
    requires r.restores == s.restores && r.songMisses == s.songMisses
    requires r.disk.files.song == s.disk.files.song && (r.disk.files.inbox ==> s.disk.files.inbox)
    requires if r.phase.WithSong? then s.kind.Mp3? && r.phase == WithSong(Mount)
             else if r.phase.Stage? then s.kind.Vendor? && r.phase == Stage(MakeDirectory) else true
    ensures Once(r)
  {
  }

  lemma {:induction false} OnceCheck(s: State, c: CheckStep)
    requires Once(s) && s.phase == Check(c)
    ensures Once(SucceedCheck(s, c)) && Once(FailCheck(s, c))
  {
    hide Once;
    OnceElsewhere(s, SucceedCheck(s, c));
    OnceElsewhere(s, FailCheck(s, c));
  }

  lemma {:induction false} OnceLate(s: State, l: LateStep, code: int)
    requires Once(s) && s.phase == Late(l)
    ensures Once(SucceedLate(s, l)) && Once(FailLate(s, l, code))
  {
    hide Once;
    OnceElsewhere(s, SucceedLate(s, l));
    OnceElsewhere(s, FailLate(s, l, code));
  }

  lemma {:induction false} OnceEnd(s: State, n: EndStep)
    requires Once(s) && s.phase == End(n)
    ensures Once(SucceedEnd(s, n)) && Once(FailEnd(s, n))
  {
    hide Once;
    OnceElsewhere(s, SucceedEnd(s, n));
    OnceElsewhere(s, FailEnd(s, n));
  }

  lemma {:induction false} OnceReturns(s: State, status: int)
    requires Once(s)
    ensures Once(Return(s, status)) && Once(Return(WriteJournal(s), status))
  {
    hide Once;
    OnceElsewhere(s, Return(s, status));
    OnceElsewhere(s, Return(WriteJournal(s), status));
  }

  lemma {:induction false} OnceSucceeds(s: State)
    requires Once(s)
    ensures Once(Succeed(s))
  {
    hide Once, SucceedCheck, SucceedSong, SucceedStage, SucceedLate, SucceedEnd, Return, WriteJournal;
    match s.phase
    case Idle =>
    case Check(c) => OnceCheck(s, c);
    case WithSong(g) => OnceSong(s, g);
    case Stage(t) => OnceStage(s, t, -1);
    case Late(l) => OnceLate(s, l, -1);
    case End(n) => OnceEnd(s, n);
    case WriteFailure(status) => OnceReturns(s, status);
  }

  lemma {:induction false} OnceFails(s: State, code: int)
    requires Once(s)
    ensures Once(FailWith(s, code))
  {
    hide Once, FailCheck, FailSong, FailLate, FailEnd, Fail, Return;
    match s.phase
    case Idle =>
    case Check(c) => OnceCheck(s, c);
    case WithSong(g) => OnceSongFails(s, g, code);
    case Stage(t) => OnceStage(s, t, code);
    case Late(l) => OnceLate(s, l, code);
    case End(n) => OnceEnd(s, n);
    case WriteFailure(status) => OnceReturns(s, status);
  }

  lemma {:induction false} OnceJournal(s: State)
    requires Once(s)
    ensures Once(WriteJournal(s))
  {
  }

  lemma {:induction false} OnceOthers(s: State, e: Event)
    requires Once(s) && !e.Step? && !e.StepFails? && !e.PartialReceipt?
    ensures Once(Next(s, e))
  {
    hide Succeed, FailWith;
  }

  lemma {:induction false} OnceStep(s: State, e: Event)
    requires Once(s)
    ensures Once(Next(s, e))
  {
    hide Succeed, FailWith, Once, WriteJournal;
    match e
    case Step => OnceSucceeds(s);
    case StepFails(code) => OnceFails(s, code);
    case PartialReceipt => OnceJournal(s); OnceFails(WriteJournal(s), -1);
    case _ => OnceOthers(s, e);
  }

  lemma {:induction false} OnceAlways(kind: Kind, events: seq<Event>)
    ensures Once(Run(Initial(kind), events))
  {
    hide Next, Once;
    if events == [] {
      OnceInitially(kind);
    } else {
      OnceAlways(kind, events[..|events| - 1]);
      OnceStep(Run(Initial(kind), events[..|events| - 1]), events[|events| - 1]);
    }
  }

  // ---- theorems ----

  /**
    However calls, failures, kills and power losses follow each other, every export start after the
    first costs a failed check of a receipt that exists, so without such a failure there is at most one.
    Once started, every disk a crash may leave still holds a receipt.
   */
  lemma {:induction false} AtMostOneExport(kind: Kind, events: seq<Event>)
    ensures var s := Run(Initial(kind), events);
            && s.started <= 1 + s.misses
            && (s.misses == 0 ==> s.started <= 1)
            && (s.started > 0 ==> HasReceipt(s.disk.files) && AllHaveReceipts(s.disk))
  {
    hide Run;
    Reachable(kind, events);
    StartedHasReceipt(Run(Initial(kind), events));
  }

  /** Whatever checks fail and however often the process is killed, a vendor export starts twice only after a power loss. */
  lemma {:induction false} VendorExportsRepeatOnlyAfterPowerLoss(events: seq<Event>)
    ensures var s := Run(Initial(Vendor), events); s.losses == 0 ==> s.started <= 1
  {
    hide Run;
    OnceAlways(Vendor, events);
    Reachable(Vendor, events);
  }

  /** An insert starts twice only after a power loss, a song moved back, or a failed check of the song. */
  lemma {:induction false} InsertsRepeatOnlyAfterRestore(events: seq<Event>)
    ensures var s := Run(Initial(Mp3), events); Undisturbed(s) ==> s.started <= 1
  {
    hide Run;
    OnceAlways(Mp3, events);
    Reachable(Mp3, events);
  }

  function Outcome(fails: bool): Event { if fails then StepFails(-1) else Step }

  /** A call whose checks fail as told and whose other effects do what they can, up to a start. */
  function Attempt(kind: Kind, doneFails: bool, journalFails: bool, songFails: bool): seq<Event> {
    [Call, Outcome(doneFails), Outcome(journalFails), Step, Step, Step, Step]
      + (if kind.Mp3? then [Outcome(songFails)] else [Step]) + [Step, Step, Step, Step]
  }

  /** The files allow a start: the upload can be staged, or moved or copied to the music folder. */
  predicate Startable(kind: Kind, f: Files, songFails: bool) {
    match kind
    case Vendor => !f.directory && f.inbox && !f.staged
    case Mp3 => f.inbox && (f.song.NoSong? || (songFails && f.song.WholeSong?))
  }

  /** Every check of a receipt that exists fails. */
  predicate Overlooked(f: Files, doneFails: bool, journalFails: bool) {
    (f.done ==> doneFails) && (f.journal ==> journalFails)
  }

  /**
    The next call begins an export if and only if its check fails for every receipt that exists and the
    files allow a start. If an export had begun, at least one receipt exists.
   */
  lemma {:induction false} StartsExactlyWhenOverlooked(kind: Kind, events: seq<Event>,
                                                       doneFails: bool, journalFails: bool, songFails: bool)
    requires Run(Initial(kind), events).phase.Idle?
    ensures var s := Run(Initial(kind), events);
            && (s.started > 0 ==> HasReceipt(s.disk.files))
            && (Run(s, Attempt(kind, doneFails, journalFails, songFails)).started > s.started
                <==> Overlooked(s.disk.files, doneFails, journalFails) && Startable(kind, s.disk.files, songFails))
  {
    hide Run, Attempt;
    Reachable(kind, events);
    var s := Run(Initial(kind), events);
    StartedHasReceipt(s);
    AttemptSplits(s, kind, doneFails, journalFails, songFails);
    var c := AfterChecks(s, doneFails, journalFails);
    ChecksPass(s, doneFails, journalFails);
    if Overlooked(s.disk.files, doneFails, journalFails) {
      if kind.Mp3? { InsertReached(c, songFails); } else { ExportReached(c); }
    } else {
      StaysIdle(c, songFails);
    }
  }

  /** Call, both checks, closing the applications and the journal. */
  function AfterChecks(s: State, doneFails: bool, journalFails: bool): State {
    Succeed(Succeed(Succeed(Next(Next(Next(s, Call), Outcome(doneFails)), Outcome(journalFails)))))
  }

  /** The remaining seven effects. */
  function AfterPreparation(c: State, song: Event): State {
    Succeed(Succeed(Succeed(Succeed(Next(Succeed(c), song)))))
  }

  function SongEvent(kind: Kind, songFails: bool): Event { if kind.Mp3? then Outcome(songFails) else Step }

  lemma {:induction false} AttemptSplits(s: State, kind: Kind, doneFails: bool, journalFails: bool, songFails: bool)
    ensures Run(s, Attempt(kind, doneFails, journalFails, songFails))
         == AfterPreparation(AfterChecks(s, doneFails, journalFails), SongEvent(kind, songFails))
  {
    hide Succeed, FailWith, Run;
    var song := SongEvent(kind, songFails);
    var first, rest := [Call, Outcome(doneFails), Outcome(journalFails), Step, Step, Step], [Step, song, Step, Step, Step, Step];
    RunOfSix(s, Call, Outcome(doneFails), Outcome(journalFails), Step, Step, Step);
    RunOfSix(Run(s, first), Step, song, Step, Step, Step, Step);
    RunConcat(s, first, rest);
    assert Attempt(kind, doneFails, journalFails, songFails) == first + rest;
  }

  lemma {:induction false} ChecksPass(s: State, doneFails: bool, journalFails: bool)
    requires s.phase.Idle?
    ensures var c := AfterChecks(s, doneFails, journalFails);
            var f := s.disk.files;
            && c.started == s.started && c.kind == s.kind
            && (Overlooked(f, doneFails, journalFails) ==>
                  && c.phase == (if s.kind.Mp3? then WithSong(Mount) else Stage(MakeDirectory))
                  && c.disk.files == f.(journal := true))
            && (!Overlooked(f, doneFails, journalFails) ==> c.phase.Idle?)
  {
    var a := Next(Next(s, Call), Outcome(doneFails));
    FirstCheck(s, doneFails);
    var b := Next(a, Outcome(journalFails));
    if a.phase.Idle? {
      IdleStays(a);
    } else {
      SecondCheck(a, journalFails);
    }
    hide Next;
    if b.phase.Idle? { IdleStays(b); } else { ClosesAndWrites(b); }
  }

  lemma {:induction false} FirstCheck(s: State, doneFails: bool)
    requires s.phase.Idle?
    ensures var a := Next(Next(s, Call), Outcome(doneFails));
            && a.started == s.started && a.kind == s.kind && a.disk == s.disk
            && a.phase == if s.disk.files.done && !doneFails then Idle else Check(FindJournal)
  {
    hide SucceedSong, SucceedStage, SucceedLate, SucceedEnd, FailSong, FailLate, FailEnd;
  }

  lemma {:induction false} SecondCheck(s: State, journalFails: bool)
    requires s.phase == Check(FindJournal)
    ensures var b := Next(s, Outcome(journalFails));
            && b.started == s.started && b.kind == s.kind && b.disk == s.disk
            && b.phase == if s.disk.files.journal && !journalFails then Idle else Check(CloseApps)
  {
    hide SucceedSong, SucceedStage, SucceedLate, SucceedEnd, FailSong, FailLate, FailEnd;
  }

  lemma {:induction false} ClosesAndWrites(s: State)
    requires s.phase == Check(CloseApps)
    ensures var c := Succeed(Succeed(Succeed(s)));
            && c.started == s.started && c.kind == s.kind && c.disk.files == s.disk.files.(journal := true)
            && c.phase == if s.kind.Mp3? then WithSong(Mount) else Stage(MakeDirectory)
  {
    hide SucceedSong, SucceedStage, SucceedLate, SucceedEnd;
  }

  lemma {:induction false} IdleStays(s: State)
    requires s.phase.Idle?
    ensures Succeed(s) == s && forall code :: FailWith(s, code) == s
  {
  }

  lemma {:induction false} StaysIdle(c: State, songFails: bool)
    requires c.phase.Idle?
    ensures AfterPreparation(c, SongEvent(c.kind, songFails)).started == c.started
  {
    IdleStays(c);
    hide Succeed, FailWith;
  }

  /** From a phase that cannot start in this step, a step makes no start. */
  lemma {:induction false} NoStart(s: State)
    ensures s.phase.WriteFailure? || s.phase.Idle? ==>
              Succeed(s).started == s.started && Succeed(s).phase.Idle?
  {
    hide SucceedCheck, SucceedSong, SucceedStage, SucceedLate, SucceedEnd;
  }

  lemma {:induction false} ExportReached(c: State)
    requires c.phase == Stage(MakeDirectory)
    ensures AfterPreparation(c, Step).started > c.started <==> Startable(Vendor, c.disk.files, false)
  {
    var f := c.disk.files;
    var a := Succeed(c);
    StageOne(c);
    var b := Succeed(a);
    if !f.directory { StageTwo(a); } else { NoStart(a); }
    if !f.directory && f.inbox && !f.staged { StageRest(b); } else { NoStart(b); }
    NoStart(Succeed(b));
    NoStart(Succeed(Succeed(b)));
    NoStart(Succeed(Succeed(Succeed(b))));
    hide Succeed, FailWith;
  }

  lemma {:induction false} StageOne(s: State)
    requires s.phase == Stage(MakeDirectory)
    ensures var r := Succeed(s);
            && r.started == s.started
            && if s.disk.files.directory then r.phase.WriteFailure?
               else r.phase == Stage(MoveSource) && r.disk.files == s.disk.files.(directory := true)
  {
    hide SucceedCheck, SucceedSong, SucceedLate, SucceedEnd;
  }

  lemma {:induction false} StageTwo(s: State)
    requires s.phase == Stage(MoveSource)
    ensures var r := Succeed(s);
            && r.started == s.started
            && if s.disk.files.inbox && !s.disk.files.staged then r.phase == Stage(WriteExporting) else r.phase.WriteFailure?
  {
    hide SucceedCheck, SucceedSong, SucceedLate, SucceedEnd;
  }

  lemma {:induction false} StageRest(s: State)
    requires s.phase == Stage(WriteExporting)
    ensures var r := Succeed(Succeed(s)); r.started == s.started + 1 && r.phase == Late(Export)
    ensures var r := Succeed(Succeed(s)); Succeed(r).started == r.started && Succeed(Succeed(r)).started == r.started
  {
    hide SucceedCheck, SucceedSong, SucceedEnd;
  }

  lemma {:induction false} InsertReached(c: State, songFails: bool)
    requires c.phase == WithSong(Mount)
    ensures AfterPreparation(c, Outcome(songFails)).started > c.started <==> Startable(Mp3, c.disk.files, songFails)
  {
    SongFound(c, songFails);
    var a := Next(Succeed(c), Outcome(songFails));
    hide Next;
    SongTaken(a);
    NoStart(a);
    NoStart(Succeed(a));
    NoStart(Succeed(Succeed(a)));
    NoStart(Succeed(Succeed(Succeed(a))));
    hide Succeed, FailWith;
  }

  lemma {:induction false} SongFound(s: State, songFails: bool)
    requires s.phase == WithSong(Mount)
    ensures var a := Next(Succeed(s), Outcome(songFails));
            && a.started == s.started && a.disk == s.disk
            && if s.disk.files.song.NoSong? || songFails then a.phase == WithSong(FindSource) else a.phase.WriteFailure?
  {
    hide SucceedCheck, SucceedStage, SucceedLate, SucceedEnd, FailCheck, FailLate, FailEnd;
  }

  /** The four steps from the look for the source on. */
  lemma {:induction false} SongTaken(s: State)
    ensures var f := s.disk.files;
            s.phase == WithSong(FindSource) ==>
              (Succeed(Succeed(Succeed(Succeed(s)))).started > s.started <==> f.inbox && !f.song.PartSong?)
  {
    if s.phase == WithSong(FindSource) {
      var f, b := s.disk.files, Succeed(s);
      SourceFound(s);
      if f.inbox {
        SongMoves(b);
      } else {
        NoStart(b);
        NoStart(Succeed(b));
        NoStart(Succeed(Succeed(b)));
      }
      hide Succeed;
    }
  }

  lemma {:induction false} SourceFound(s: State)
    requires s.phase == WithSong(FindSource)
    ensures var r := Succeed(s);
            && r.started == s.started && r.disk == s.disk
            && if s.disk.files.inbox then r.phase == WithSong(Move) else r.phase.WriteFailure?
  {
    hide SucceedCheck, SucceedStage, SucceedLate, SucceedEnd;
  }

  lemma {:induction false} SongMoves(s: State)
    requires s.phase == WithSong(Move)
    ensures Succeed(Succeed(Succeed(s))).started > s.started <==> !s.disk.files.song.PartSong?
  {
    var a := Succeed(s);
    MoveResult(s);
    if a.phase == WithSong(Copy) { CopyResult(a); }
    var b := Succeed(a);
    SucceedsSame(a);
    SucceedsSame(b);
    NoStart(b);
    hide Succeed;
  }

  lemma {:induction false} MoveResult(s: State)
    requires s.phase == WithSong(Move)
    ensures var r := Succeed(s);
            && r.started == s.started && (!s.disk.files.song.NoSong? ==> r.disk == s.disk)
            && r.phase == if s.disk.files.song.NoSong? then WithSong(Sync(true)) else WithSong(Copy)
  {
    hide SucceedCheck, SucceedStage, SucceedEnd;
  }

  lemma {:induction false} CopyResult(s: State)
    requires s.phase == WithSong(Copy)
    ensures var r := Succeed(s);
            && r.started == s.started
            && if s.disk.files.song.PartSong? then r.phase.WriteFailure? else r.phase == WithSong(Sync(false))
  {
    hide SucceedCheck, SucceedStage, SucceedEnd;
  }

  /** Any call that begins an export although one had begun missed a receipt. */
  lemma {:induction false} RepeatedOnlyWhenMissed(kind: Kind, events: seq<Event>, e: Event)
    requires Next(Run(Initial(kind), events), e).started > Run(Initial(kind), events).started > 0
    ensures Run(Initial(kind), events).blind
  {
    hide Run;
    Reachable(kind, events);
    var s := Run(Initial(kind), events);
    StartsOnlyHere(s, e);
    hide DiskSound, AllHaveJournal, Committed, Next;
  }

  /** An export starts only at these two points. */
  lemma {:induction false} StartsOnlyHere(s: State, e: Event)
    requires Next(s, e).started != s.started
    ensures e.Step? && AtStart(s.phase) && Next(s, e).started == s.started + 1
    ensures (s.phase.WithSong? && s.phase.song.Sync? && Next(s, e).disk == Synced(s).disk)
         || (s.phase == Stage(LoadExporter) && Next(s, e).disk == s.disk)
  {
    SucceedsSame(s);
    FailsSame(s, if e.StepFails? then e.code else -1);
    FailsSame(WriteJournal(s), -1);
    hide FailWith, SucceedCheck, SucceedLate, SucceedEnd;
  }

  /** The export starts only on a disk where the journal survives every power loss. */
  lemma {:induction false} ExportStartsAfterDurableJournal(kind: Kind, events: seq<Event>, e: Event)
    requires Next(Run(Initial(kind), events), e).started != Run(Initial(kind), events).started
    ensures var s' := Next(Run(Initial(kind), events), e);
            s'.started == Run(Initial(kind), events).started + 1 && AllHaveJournal(s'.disk)
  {
    hide Run;
    Reachable(kind, events);
    var s := Run(Initial(kind), events);
    StartsOnlyHere(s, e);
    SyncedKeepsPhase(s);
    hide DiskSound, AllHaveJournal, Committed, Next;
  }

  /** The upload is deleted only when no power loss can bring back a state without the done receipt. */
  lemma {:induction false} SourceRemovedOnlyWhenDone(kind: Kind, events: seq<Event>)
    requires Run(Initial(kind), events).removed
    ensures Committed(Run(Initial(kind), events))
  {
    hide Run;
    Reachable(kind, events);
  }

  lemma {:induction false} RunMore(s: State, events: seq<Event>, e: Event)
    ensures Run(s, events + [e]) == Next(Run(s, events), e)
  {
    hide Next;
    assert (events + [e])[..|events|] == events;
  }

  lemma {:induction false} RunNothing(s: State)
    ensures Run(s, []) == s
  {
    hide Next;
  }

  lemma {:induction false} RunConcat(s: State, a: seq<Event>, b: seq<Event>)
    ensures Run(s, a + b) == Run(Run(s, a), b)
  {
    hide Next, Run;
    if b == [] {
      RunNothing(Run(s, a));
      assert a + b == a;
    } else {
      var n := |b| - 1;
      RunConcat(s, a, b[..n]);
      RunMore(s, a + b[..n], b[n]);
      RunMore(Run(s, a), b[..n], b[n]);
      assert a + b[..n] + [b[n]] == a + b && b[..n] + [b[n]] == b;
    }
  }

  lemma {:induction false} RunOfSix(s: State, a: Event, b: Event, c: Event, d: Event, e: Event, f: Event)
    ensures Run(s, [a, b, c, d, e, f]) == Next(Next(Next(Next(Next(Next(s, a), b), c), d), e), f)
  {
    hide Next, Run;
    RunNothing(s);
    RunMore(s, [a, b, c, d, e], f);
    RunMore(s, [a, b, c, d], e);
    RunMore(s, [a, b, c], d);
    RunMore(s, [a, b], c);
    RunMore(s, [a], b);
    RunMore(s, [], a);
    assert [] + [a] == [a] && [a] + [b] == [a, b] && [a, b] + [c] == [a, b, c];
    assert [a, b, c] + [d] == [a, b, c, d] && [a, b, c, d] + [e] == [a, b, c, d, e];
    assert [a, b, c, d, e] + [f] == [a, b, c, d, e, f];
  }

  /** The commit itself is never lost, whatever fails. */
  lemma {:induction false} CommitIsPermanent(kind: Kind, events: seq<Event>, more: seq<Event>)
    requires Committed(Run(Initial(kind), events))
    ensures Committed(Run(Run(Initial(kind), events), more))
  {
    var s := Run(Initial(kind), events);
    hide Next, Committed;
    if more == [] {
      RunNothing(s);
    } else {
      var before := more[..|more| - 1];
      CommitIsPermanent(kind, events, before);
      Reachable(kind, events);
      RunPreservesInvariant(s, before);
      CommitStep(Run(s, before), more[|more| - 1]);
    }
  }

  /** No effect but a power loss brings an earlier disk back, and none removes the done receipt. */
  lemma {:induction false} CommitStep(s: State, e: Event)
    requires Invariant(s) && Committed(s)
    ensures Committed(Next(s, e))
  {
    StepPreservesInvariant(s, e);
    DoneStays(s, e);
    CommittedDisk(s);
  }

  lemma {:induction false} CommittedDisk(s: State)
    requires Committed(s)
    ensures forall f :: f in s.disk.survivors ==> f.done
  {
  }

  /** Whatever the files were and may be after a step, the done receipt is among them if it always was. */
  lemma {:induction false} DoneStays(s: State, e: Event)
    requires s.disk.files in s.disk.survivors && AllDone(s.disk)
    ensures Next(s, e).disk.files.done && AllDone(Next(s, e).disk)
  {
    hide Succeed, FailWith;
    match e
    case Step => DoneSucceeds(s);
    case StepFails(code) => DoneFails(s, code);
    case PartialReceipt => DoneFails(WriteJournal(s), -1);
    case _ =>
  }

  lemma {:induction false} DoneSong(s: State, g: SongStep)
    requires s.disk.files in s.disk.survivors && AllDone(s.disk)
    ensures SucceedSong(s, g).disk.files.done && AllDone(SucceedSong(s, g).disk)
  {
  }

  lemma {:induction false} DoneStage(s: State, t: StageStep)
    requires s.disk.files in s.disk.survivors && AllDone(s.disk)
    ensures SucceedStage(s, t).disk.files.done && AllDone(SucceedStage(s, t).disk)
  {
  }

  lemma {:induction false} DoneLate(s: State, l: LateStep)
    requires s.disk.files in s.disk.survivors && AllDone(s.disk)
    ensures SucceedLate(s, l).disk.files.done && AllDone(SucceedLate(s, l).disk)
  {
  }

  lemma {:induction false} DoneCheck(s: State, c: CheckStep)
    requires s.disk.files in s.disk.survivors && AllDone(s.disk)
    ensures SucceedCheck(s, c).disk.files.done && AllDone(SucceedCheck(s, c).disk)
  {
  }

  lemma {:induction false} DoneEnd(s: State, n: EndStep)
    requires s.disk.files in s.disk.survivors && AllDone(s.disk)
    ensures SucceedEnd(s, n).disk.files.done && AllDone(SucceedEnd(s, n).disk)
  {
  }

  lemma {:induction false} DoneReturn(s: State, status: int)
    requires s.disk.files in s.disk.survivors && AllDone(s.disk)
    ensures s.disk.files.done
    ensures Return(WriteJournal(s), status).disk.files.done && AllDone(Return(WriteJournal(s), status).disk)
  {
  }

  lemma {:induction false} DoneSucceeds(s: State)
    requires s.disk.files in s.disk.survivors && AllDone(s.disk)
    ensures Succeed(s).disk.files.done && AllDone(Succeed(s).disk)
  {
    hide SucceedCheck, SucceedSong, SucceedStage, SucceedLate, SucceedEnd, Return, WriteJournal, AllDone;
    DoneReturn(s, if s.phase.WriteFailure? then s.phase.status else 0);
    match s.phase
    case Check(c) => DoneCheck(s, c);
    case WithSong(g) => DoneSong(s, g);
    case Stage(t) => DoneStage(s, t);
    case Late(l) => DoneLate(s, l);
    case End(n) => DoneEnd(s, n);
    case _ =>
  }

  lemma {:induction false} DoneFails(s: State, code: int)
    ensures FailWith(s, code).disk == s.disk
  {
  }

  lemma {:induction false} MissesGrow(s: State, more: seq<Event>)
    ensures Run(s, more).misses >= s.misses
  {
    hide Next;
    if more != [] {
      MissesGrow(s, more[..|more| - 1]);
      KindStep(Run(s, more[..|more| - 1]), more[|more| - 1]);
    }
  }

  /** Between calls, or in a call that has only to remove the source or to look for the receipt. */
  predicate Resting(s: State) {
    s.phase.Idle? || s.phase == Check(FindDone) || s.phase == End(RemoveSource) || s.phase == End(RemoveDirectory)
  }

  lemma {:induction false} RestingStep(s: State, e: Event)
    requires Committed(s) && Resting(s) && Next(s, e).misses == s.misses
    ensures Resting(Next(s, e)) && Next(s, e).started == s.started
  {
    hide SucceedSong, SucceedStage, SucceedLate, FailSong, FailLate, AllDone;
  }

  /** After the commit, later calls start nothing as long as no check misses the receipt. */
  lemma {:induction false} CommitEndsTheProtocol(kind: Kind, events: seq<Event>, more: seq<Event>)
    requires Committed(Run(Initial(kind), events)) && Resting(Run(Initial(kind), events))
    requires Run(Run(Initial(kind), events), more).misses == Run(Initial(kind), events).misses
    ensures var s, s' := Run(Initial(kind), events), Run(Run(Initial(kind), events), more);
            Resting(s') && s'.started == s.started && Committed(s')
  {
    hide Next, Committed, Resting;
    var s := Run(Initial(kind), events);
    CommitIsPermanent(kind, events, more);
    if more == [] {
      RunNothing(s);
    } else {
      var before, e := more[..|more| - 1], more[|more| - 1];
      MissesGrow(s, before);
      KindStep(Run(s, before), e);
      CommitIsPermanent(kind, events, before);
      CommitEndsTheProtocol(kind, events, before);
      RestingStep(Run(s, before), e);
    }
  }

  predicate Returns(s: State, e: Event, result: int) {
    !s.phase.Idle? && Next(s, e).phase.Idle? && Next(s, e).result == result && (e.Step? || e.StepFails? || e.PartialReceipt?)
  }

  /** Success is returned only when the done receipt is found, or behind the last removal. */
  lemma {:induction false} ReturnsZero(s: State, e: Event)
    requires Invariant(s) && Returns(s, e, 0)
    ensures s.phase == Check(FindDone) || s.phase == End(RemoveDirectory)
    ensures s.phase == Check(FindDone) ==> e.Step? && s.disk.files.done && Next(s, e) == Return(s, 0)
    ensures s.phase == End(RemoveDirectory) ==> Next(s, e).exported
  {
    hide DiskSound, AllHaveJournal;
    match s.phase
    case WithSong(g) => SongNeverReturns(s, g, if e.StepFails? then e.code else -1);
    case _ =>
    hide SucceedSong, FailSong;
  }

  lemma {:induction false} SongNeverReturns(s: State, g: SongStep, code: int)
    ensures !SucceedSong(s, g).phase.Idle? && !FailSong(s, g, code).phase.Idle?
  {
  }

  /**
    A success return always means that the done receipt exists. It is durable exactly when a sync
    has succeeded since the rename, which is so whenever the returning call made the export.
   */
  lemma {:induction false} SuccessMeansDone(kind: Kind, events: seq<Event>, e: Event)
    requires Returns(Run(Initial(kind), events), e, 0)
    ensures var s' := Next(Run(Initial(kind), events), e);
            && s'.disk.files.done
            && (Committed(s') <==> !s'.unsynced)
            && (s'.exported ==> Committed(s'))
  {
    hide Run;
    Reachable(kind, events);
    var s := Run(Initial(kind), events);
    ReturnsZero(s, e);
    StepPreservesInvariant(s, e);
    if s.phase == End(RemoveDirectory) {
      CommitStep(s, e);
    }
    hide Next, Returns;
  }

  // ---- runs ----

  lemma {:induction false} Then(kind: Kind, events: seq<Event>, e: Event) returns (longer: seq<Event>)
    ensures longer == events + [e]
    ensures Run(Initial(kind), longer) == Next(Run(Initial(kind), events), e)
  {
    longer := events + [e];
    RunMore(Initial(kind), events, e);
  }

  const JOURNAL_WRITTEN := UPLOADED.(journal := true)

  /** The call has passed its checks and written the durable journal. */
  lemma {:induction false} PreparedRun(kind: Kind) returns (events: seq<Event>)
    ensures Run(Initial(kind), events) ==
              State(kind, Disk(JOURNAL_WRITTEN, {JOURNAL_WRITTEN}), if kind.Mp3? then WithSong(Mount) else Stage(MakeDirectory),
                    0, 0, 0, 0, 0, false, false, false, false, -1)
  {
    RunNothing(Initial(kind));
    events := Then(kind, [], Call);
    events := Then(kind, events, Step); // no done receipt
    events := Then(kind, events, Step); // no journal
    events := Then(kind, events, Step); // applications closed
    events := Then(kind, events, Step); // journal written
    events := Then(kind, events, Step); // synced
  }

  const SONG_MOVED := JOURNAL_WRITTEN.(inbox := false, song := WholeSong)

  /** The insert of an mp3 has begun. */
  lemma {:induction false} InsertRun() returns (events: seq<Event>)
    ensures Run(Initial(Mp3), events) ==
              State(Mp3, Disk(SONG_MOVED, {SONG_MOVED}), WithSong(Insert(true)), 1, 0, 0, 0, 0, false, true, false, false, -1)
  {
    events := PreparedRun(Mp3);
    events := Then(Mp3, events, Step); // music mounted
    events := Then(Mp3, events, Step); // no song
    events := Then(Mp3, events, Step); // the upload is there
    events := Then(Mp3, events, Step); // moved
    events := Then(Mp3, events, Step); // synced
  }

  /** A failed insert is rolled back and the song moved back; then one missed journal check starts another. */
  lemma {:induction false} MissedJournalRepeatsInsert() returns (events: seq<Event>)
    ensures var s := Run(Initial(Mp3), events);
            && s.started == 1 && s.misses == 0 && s.losses == 0 && s.songMisses == 0
            && Run(s, Attempt(Mp3, false, true, false)).started > 1
  {
    events := InsertRun();
    events := Then(Mp3, events, StepFails(-1)); // rolled back
    events := Then(Mp3, events, Step);          // moved back
    events := Then(Mp3, events, Step);          // failure recorded
    hide Next, Run, Attempt;
    StartsExactlyWhenOverlooked(Mp3, events, false, true, false);
  }

  /** The vendor export has begun and the process is killed. */
  lemma {:induction false} KilledExport() returns (events: seq<Event>)
    ensures var s := Run(Initial(Vendor), events);
            && s.phase.Idle? && s.started == 1 && s.misses == 0 && s.losses == 0 && s.disk.files.directory
            && s.disk.files.journal && JOURNAL_WRITTEN in s.disk.survivors
  {
    events := PreparedRun(Vendor);
    events := Then(Vendor, events, Step); // directory made
    events := Then(Vendor, events, Step); // source moved
    events := Then(Vendor, events, Step); // journal rewritten
    events := Then(Vendor, events, Step); // export begins
    events := Then(Vendor, events, Killed);
  }

  /** Without a power loss a missed check does no harm: the staging directory stops the next call. */
  lemma {:induction false} StagingStopsTheNextCall() returns (events: seq<Event>)
    ensures var s := Run(Initial(Vendor), events);
            s.phase.Idle? && s.started == 1 && Run(s, Attempt(Vendor, true, true, true)).started <= 1
  {
    events := KilledExport();
    hide Next, Run, Attempt;
    StartsExactlyWhenOverlooked(Vendor, events, true, true, true);
  }

  /** A power loss that undoes directory and move, and one missed journal check, and the export starts again. */
  lemma {:induction false} MissedJournalRepeatsExport() returns (events: seq<Event>)
    ensures var s := Run(Initial(Vendor), events);
            && s.started == 1 && s.misses == 0
            && Run(s, Attempt(Vendor, false, true, false)).started > 1
  {
    events := KilledExport();
    events := Then(Vendor, events, PowerLoss(JOURNAL_WRITTEN));
    hide Next, Run, Attempt;
    StartsExactlyWhenOverlooked(Vendor, events, false, true, false);
  }

  const SONG_DONE := SONG_MOVED.(journal := false, done := true)

  lemma {:induction false} RenamedRun() returns (events: seq<Event>)
    ensures Run(Initial(Mp3), events) ==
              State(Mp3, Disk(SONG_DONE, {SONG_MOVED, SONG_DONE}), End(SyncDone), 1, 0, 0, 0, 0, false, true, true, false, -1)
  {
    events := InsertRun();
    events := Then(Mp3, events, Step); // inserted
    events := Then(Mp3, events, Step); // verified
    events := Then(Mp3, events, Step); // no sidecar
    events := Then(Mp3, events, Step); // no folder
    events := Then(Mp3, events, Step); // synced
    events := Then(Mp3, events, Step); // result written
    events := Then(Mp3, events, Step); // renamed
  }

  /**
    A later call that only finds the receipt reports success without it being durable: the sync
    after the rename failed, and a power loss now brings the journal back.
   */
  lemma {:induction false} SuccessWithoutDurability() returns (events: seq<Event>)
    ensures var s := Run(Initial(Mp3), events);
            && Returns(s, Step, 0) && !Committed(Next(s, Step))
            && Next(Next(s, Step), PowerLoss(SONG_MOVED)).disk.files == SONG_MOVED && !SONG_MOVED.done
  {
    events := RenamedRun();
    events := Then(Mp3, events, StepFails(-1));
    events := Then(Mp3, events, Call);
  }
}
