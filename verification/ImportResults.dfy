/** What an import call reports: success exactly for a complete import. */
module ImportResults {
  import opened ImportProtocol
  import opened ImportSafety

  // ---- a call in which everything succeeds ----

  function Steps(s: State, count: nat): State {
    if count == 0 then s else Next(Steps(s, count - 1), Step)
  }

  lemma {:induction false} StepsAdd(s: State, a: nat, b: nat)
    ensures Steps(s, a + b) == Steps(Steps(s, a), b)
  {
    hide Next;
    if b > 0 {
      StepsAdd(s, a, b - 1);
    }
  }

  lemma {:induction false} StepsKeepInvariant(s: State, count: nat)
    requires Invariant(s)
    ensures Invariant(Steps(s, count))
  {
    hide Next, Invariant;
    if count > 0 {
      StepsKeepInvariant(s, count - 1);
      StepPreservesInvariant(Steps(s, count - 1), Step);
    }
  }

  /** Where a call stands. */
  predicate Stands(s: State, kind: Kind, phase: Phase, files: Files, started: nat) {
    s.kind == kind && s.phase == phase && s.disk.files == files && s.started == started
  }

  lemma {:induction false} CheckOne(s: State, c: CheckStep, files: Files, started: nat)
    requires Stands(s, s.kind, Check(c), files, started)
    requires (c.FindDone? ==> !files.done) && (c.FindJournal? ==> !files.journal)
    ensures var next := match c
                        case FindDone => Check(FindJournal) case FindJournal => Check(CloseApps)
                        case CloseApps => Check(WriteStart) case WriteStart => Check(SyncStart)
                        case SyncStart => if s.kind.Mp3? then WithSong(Mount) else Stage(MakeDirectory);
            Stands(Next(s, Step), s.kind, next, if c.WriteStart? then files.(journal := true) else files, started)
  {
    hide SucceedSong, SucceedStage, SucceedLate, SucceedEnd;
  }

  lemma {:induction false} StageSteps(s: State, t: StageStep, files: Files, started: nat)
    requires Stands(s, Vendor, Stage(t), files, started)
    requires (t.MakeDirectory? ==> !files.directory) && (t.MoveSource? ==> files.inbox && !files.staged)
    ensures match t
            case MakeDirectory => Stands(Next(s, Step), Vendor, Stage(MoveSource), files.(directory := true), started)
            case MoveSource =>
              Stands(Next(s, Step), Vendor, Stage(WriteExporting), files.(inbox := false, staged := true), started)
            case WriteExporting => Stands(Next(s, Step), Vendor, Stage(LoadExporter), files.(journal := true), started)
            case LoadExporter => Stands(Next(s, Step), Vendor, Late(Export), files, started + 1)
  {
    hide SucceedSong, SucceedCheck, SucceedLate, SucceedEnd;
  }

  lemma {:induction false} SongSteps(s: State, g: SongStep, files: Files, started: nat)
    requires Stands(s, Mp3, WithSong(g), files, started) && !g.Copy? && !g.Restore?
    requires (g.FindSong? || g.Move? ==> files.song.NoSong?) && (g.FindSource? ==> files.inbox)
    ensures match g
            case Mount => Stands(Next(s, Step), Mp3, WithSong(FindSong), files, started)
            case FindSong => Stands(Next(s, Step), Mp3, WithSong(FindSource), files, started)
            case FindSource => Stands(Next(s, Step), Mp3, WithSong(Move), files, started)
            case Move => Stands(Next(s, Step), Mp3, WithSong(Sync(true)), files.(inbox := false, song := WholeSong), started)
            case Sync(moved) => Stands(Next(s, Step), Mp3, WithSong(Insert(moved)), files, started + 1)
            case _ => Stands(Next(s, Step), Mp3, Late(Verify), files, started)
  {
    hide SucceedStage, SucceedCheck, SucceedLate, SucceedEnd;
  }

  lemma {:induction false} EndSteps(s: State, n: EndStep, files: Files, started: nat)
    requires Stands(s, s.kind, End(n), files, started)
    ensures match n
            case SyncDone => Stands(Next(s, Step), s.kind, End(RemoveSource), files, started)
            case RemoveSource =>
              Stands(Next(s, Step), s.kind, End(RemoveDirectory),
                     if s.kind.Mp3? then files.(inbox := false) else files.(staged := false), started)
            case RemoveDirectory =>
              && Stands(Next(s, Step), s.kind, Idle, if files.staged then files else files.(directory := false), started)
              && Next(s, Step).result == 0
  {
    hide SucceedSong, SucceedStage, SucceedCheck, SucceedLate;
  }

  /** From the call to the durable journal. */
  lemma {:induction false} ChecksRun(s: State, files: Files)
    requires s.phase.Idle? && s.disk.files == files && !HasReceipt(files)
    ensures Stands(Steps(Next(s, Call), 5), s.kind, if s.kind.Mp3? then WithSong(Mount) else Stage(MakeDirectory),
                   files.(journal := true), s.started)
  {
    var a := Next(s, Call);
    CallStands(s);
    hide Next, Stands;
    CheckOne(Steps(a, 0), FindDone, files, s.started);
    CheckOne(Steps(a, 1), FindJournal, files, s.started);
    CheckOne(Steps(a, 2), CloseApps, files, s.started);
    CheckOne(Steps(a, 3), WriteStart, files, s.started);
    CheckOne(Steps(a, 4), SyncStart, files.(journal := true), s.started);
  }

  lemma {:induction false} CallStands(s: State)
    requires s.phase.Idle?
    ensures Stands(Next(s, Call), s.kind, Check(FindDone), s.disk.files, s.started)
  {
    hide Succeed, FailWith;
  }

  /** Staging and export. */
  lemma {:induction false} StageRun(a: State, f: Files)
    requires Stands(a, Vendor, Stage(MakeDirectory), f, a.started) && !f.directory && f.inbox && !f.staged && f.journal
    ensures Stands(Steps(a, 5), Vendor, Late(Verify), f.(directory := true, inbox := false, staged := true), a.started + 1)
  {
    hide Next, Stands;
    var g := f.(directory := true, inbox := false, staged := true);
    StageSteps(Steps(a, 0), MakeDirectory, f, a.started);
    StageSteps(Steps(a, 1), MoveSource, f.(directory := true), a.started);
    StageSteps(Steps(a, 2), WriteExporting, g, a.started);
    assert g.(journal := true) == g;
    StageSteps(Steps(a, 3), LoadExporter, g, a.started);
    LateOne(Steps(a, 4), Vendor, Export, g, a.started + 1);
  }

  /** Move and insert. */
  lemma {:induction false} SongRun(a: State, f: Files)
    requires Stands(a, Mp3, WithSong(Mount), f, a.started) && f.song.NoSong? && f.inbox
    ensures Stands(Steps(a, 6), Mp3, Late(Verify), f.(inbox := false, song := WholeSong), a.started + 1)
  {
    hide Next, Stands;
    var g := f.(inbox := false, song := WholeSong);
    SongSteps(Steps(a, 0), Mount, f, a.started);
    SongSteps(Steps(a, 1), FindSong, f, a.started);
    SongSteps(Steps(a, 2), FindSource, f, a.started);
    SongSteps(Steps(a, 3), Move, f, a.started);
    SongSteps(Steps(a, 4), Sync(true), g, a.started);
    SongSteps(Steps(a, 5), Insert(true), g, a.started + 1);
  }

  /** From the verification to the done receipt. */
  lemma {:induction false} VerifiedRun(a: State, kind: Kind, f: Files)
    requires Stands(a, kind, Late(Verify), f, a.started) && f.journal
    ensures Stands(Steps(a, 6), kind, End(SyncDone), f.(journal := false, done := true), a.started)
  {
    hide Next, Stands;
    LateOne(Steps(a, 0), kind, Verify, f, a.started);
    LateOne(Steps(a, 1), kind, MoveSidecar, f, a.started);
    LateOne(Steps(a, 2), kind, MoveToFolder, f, a.started);
    LateOne(Steps(a, 3), kind, SyncCommit, f, a.started);
    LateOne(Steps(a, 4), kind, WriteResult, f, a.started);
    assert f.(journal := true) == f;
    LateOne(Steps(a, 5), kind, RenameDone, f, a.started);
  }

  lemma {:induction false} LateOne(s: State, kind: Kind, l: LateStep, f: Files, started: nat)
    requires Stands(s, kind, Late(l), f, started)
    ensures match l
            case Export => Stands(Next(s, Step), kind, Late(Verify), f, started)
            case Verify => Stands(Next(s, Step), kind, Late(MoveSidecar), f, started)
            case MoveSidecar => Stands(Next(s, Step), kind, Late(MoveToFolder), f, started)
            case MoveToFolder => Stands(Next(s, Step), kind, Late(SyncCommit), f, started)
            case SyncCommit => Stands(Next(s, Step), kind, Late(WriteResult), f, started)
            case WriteResult => Stands(Next(s, Step), kind, Late(RenameDone), f.(journal := true), started)
            case RenameDone => Stands(Next(s, Step), kind, End(SyncDone), f.(journal := false, done := true), started)
  {
    hide SucceedSong, SucceedStage, SucceedCheck, SucceedEnd;
  }

  /** From the done receipt to the removal of the directory. */
  lemma {:induction false} CommitRun(a: State, kind: Kind, f: Files)
    requires Stands(a, kind, Late(Verify), f, a.started) && f.journal
    ensures var g := f.(journal := false, done := true);
            Stands(Steps(a, 8), kind, End(RemoveDirectory), if kind.Mp3? then g.(inbox := false) else g.(staged := false), a.started)
  {
    VerifiedRun(a, kind, f);
    var g := f.(journal := false, done := true);
    var b := Steps(a, 6);
    hide Next;
    EndSteps(b, SyncDone, g, a.started);
    assert Steps(a, 7) == Next(b, Step);
    EndSteps(Steps(a, 7), RemoveSource, g, a.started);
    assert Steps(a, 8) == Next(Steps(a, 7), Step);
  }

  lemma {:induction false} KindStays(s: State, count: nat)
    ensures Steps(s, count).kind == s.kind
  {
    hide Next;
    if count > 0 {
      KindStays(s, count - 1);
      KindStep(Steps(s, count - 1), Step);
    }
  }

  /** The effects of a whole call. */
  function CallLength(kind: Kind): nat { if kind.Mp3? then 20 else 19 }

  /**
    From any reachable idle state without a receipt whose files allow a start, a call whose effects all
    succeed makes exactly one start and returns 0, with a durable done receipt, and with the upload and its
    staging directory gone.
   */
  lemma {:induction false} CompleteImportSucceeds(kind: Kind, events: seq<Event>)
    requires var s := Run(Initial(kind), events);
             s.phase.Idle? && !HasReceipt(s.disk.files) && Startable(kind, s.disk.files, false)
    ensures var s, r := Run(Initial(kind), events), Steps(Next(Run(Initial(kind), events), Call), CallLength(kind));
            && r.phase.Idle? && r.result == 0 && r.started == s.started + 1 && Committed(r)
            && r.disk.files.done && !r.disk.files.journal && !r.disk.files.inbox
            && (kind.Vendor? ==> !r.disk.files.staged && !r.disk.files.directory)
            && (kind.Mp3? ==> r.disk.files.song.WholeSong?)
  {
    Reachable(kind, events);
    var s := Run(Initial(kind), events);
    hide Run, Next;
    var f, a := s.disk.files, Next(s, Call);
    StepPreservesInvariant(s, Call);
    ChecksRun(s, f);
    var b := Steps(a, 5);
    var c := Steps(b, if kind.Mp3? then 6 else 5);
    if kind.Mp3? { SongRun(b, f.(journal := true)); } else { StageRun(b, f.(journal := true)); }
    CommitRun(c, kind, c.disk.files);
    var d := Steps(c, 8);
    EndSteps(d, RemoveDirectory, d.disk.files, d.started);
    StepsAdd(a, 5, if kind.Mp3? then 6 else 5);
    StepsAdd(a, if kind.Mp3? then 11 else 10, 8);
    StepsKeepInvariant(a, if kind.Mp3? then 19 else 18);
    CommitStep(d, Step);
    assert Steps(a, CallLength(kind)) == Next(d, Step);
    KindStays(a, 5);
  }

  /** A call that finds the done receipt returns 0 at once; one that finds only the journal returns -1002. */
  lemma {:induction false} ReceiptsDecide(s: State)
    requires s.phase.Idle?
    ensures s.disk.files.done ==> Steps(Next(s, Call), 1) == Next(s, Call).(phase := Idle, result := 0)
    ensures !s.disk.files.done && s.disk.files.journal ==>
              Steps(Next(s, Call), 2) == Next(s, Call).(phase := Idle, result := -1002)
  {
    hide SucceedSong, SucceedStage, SucceedLate, SucceedEnd;
    assert Steps(Next(s, Call), 1) == Next(Steps(Next(s, Call), 0), Step);
  }

  // ---- the result of a call that made a start ----

  /** An effect from the start on, up to the second sync, fails. */
  predicate FailsLate(s: State, e: Event) {
    && s.exported && (s.phase.WithSong? || s.phase.Late? || s.phase == End(SyncDone))
    && (e.StepFails? || (e.PartialReceipt? && WritesReceipt(s.phase)))
  }

  /** Such a failure happened in the current call. */
  ghost predicate Flawed(kind: Kind, events: seq<Event>) {
    events != [] &&
    var s, e := Run(Initial(kind), events[..|events| - 1]), events[|events| - 1];
    !(e.Call? && s.phase.Idle?) && (Flawed(kind, events[..|events| - 1]) || FailsLate(s, e))
  }

  /** What the phase says of the current call. */
  predicate Honest(s: State, flawed: bool) {
    && (!s.exported ==> !flawed)
    && (s.exported && (s.phase.Late? || s.phase.End? || (s.phase.WithSong? && s.phase.song.Insert?)) ==> !flawed)
    && (s.exported && (s.phase.WriteFailure? || s.phase == WithSong(Restore)) ==> flawed)
  }

  lemma {:induction false} HonestFailure(s: State, code: int, flawed: bool)
    requires Invariant(s) && !s.phase.Idle? && Honest(s, flawed)
    ensures Honest(FailWith(s, code), flawed || FailsLate(s, StepFails(code)))
  {
    hide DiskSound, AllHaveJournal, Committed;
  }

  lemma {:induction false} HonestSongSuccess(s: State, flawed: bool)
    requires Invariant(s) && s.phase.WithSong? && Honest(s, flawed)
    ensures Honest(Succeed(s), flawed)
  {
    hide DiskSound, AllHaveJournal, Committed, SucceedCheck, SucceedStage, SucceedLate, SucceedEnd;
  }

  lemma {:induction false} HonestSuccess(s: State, flawed: bool)
    requires Invariant(s) && !s.phase.Idle? && Honest(s, flawed)
    ensures Honest(Succeed(s), flawed)
  {
    hide DiskSound, AllHaveJournal, Committed, SucceedSong;
    if s.phase.WithSong? { HonestSongSuccess(s, flawed); }
  }

  /** The flaw after one more event. */
  predicate FlawAfter(s: State, e: Event, flawed: bool) {
    !(e.Call? && s.phase.Idle?) && (flawed || FailsLate(s, e))
  }

  lemma {:induction false} HonestOthers(s: State, e: Event, flawed: bool)
    requires Invariant(s) && Honest(s, flawed) && !e.Step? && !e.StepFails? && !e.PartialReceipt?
    ensures Honest(Next(s, e), FlawAfter(s, e, flawed))
  {
    hide Succeed, FailWith, DiskSound, AllHaveJournal, Committed;
  }

  lemma {:induction false} HonestPartial(s: State, flawed: bool)
    requires Invariant(s) && Honest(s, flawed) && WritesReceipt(s.phase)
    ensures Honest(FailWith(WriteJournal(s), -1), flawed || FailsLate(s, PartialReceipt))
  {
    hide DiskSound, AllHaveJournal, Committed;
  }

  lemma {:induction false} HonestStep(s: State, e: Event, flawed: bool)
    requires Invariant(s) && Honest(s, flawed)
    ensures Honest(Next(s, e), FlawAfter(s, e, flawed))
  {
    hide Succeed, FailWith, Invariant, WriteJournal;
    if s.phase.Idle? { IdleStays(s); }
    match e
    case Step => if !s.phase.Idle? { HonestSuccess(s, flawed); }
    case StepFails(code) => if !s.phase.Idle? { HonestFailure(s, code, flawed); }
    case PartialReceipt => if WritesReceipt(s.phase) { HonestPartial(s, flawed); }
    case _ => HonestOthers(s, e, flawed);
  }

  lemma {:induction false} HonestAlways(kind: Kind, events: seq<Event>)
    ensures Honest(Run(Initial(kind), events), Flawed(kind, events))
  {
    hide Next, Honest, FailsLate;
    if events == [] {
      HonestInitially(kind);
    } else {
      var front := events[..|events| - 1];
      HonestAlways(kind, front);
      Reachable(kind, front);
      HonestStep(Run(Initial(kind), front), events[|events| - 1], Flawed(kind, front));
    }
  }

  lemma {:induction false} HonestInitially(kind: Kind)
    ensures Honest(Initial(kind), false)
  {
  }

  /** A call behind its start returns only from these phases. */
  lemma {:induction false} ReturnPoints(s: State, e: Event, result: int)
    requires Invariant(s) && s.exported && Returns(s, e, result)
    ensures s.phase == End(RemoveDirectory) || FailsLate(s, e) || s.phase.WriteFailure?
    ensures s.phase == End(RemoveDirectory) ==> result == 0
    ensures s.phase != End(RemoveDirectory) ==> result < 0
  {
    hide DiskSound, AllHaveJournal, Committed;
    if s.phase.WithSong? {
      SongNeverReturns(s, s.phase.song, if e.StepFails? then e.code else -1);
    }
    hide SucceedSong, FailSong;
  }

  /** A call that made a start returns 0 if and only if no effect from the start up to the second sync failed. */
  lemma {:induction false} ResultIsHonest(kind: Kind, events: seq<Event>, e: Event, result: int)
    requires var s := Run(Initial(kind), events); s.exported && Returns(s, e, result)
    ensures result == 0 <==> !Flawed(kind, events + [e])
    ensures result <= 0
  {
    Reachable(kind, events);
    HonestAlways(kind, events);
    var s := Run(Initial(kind), events);
    ReturnPoints(s, e, result);
    assert (events + [e])[..|events|] == events;
    hide Run, Returns, Invariant;
  }

  // ---- which failure is reported ----

  /** A failing effect that ends the call. The checks, the move that a copy replaces and the last removals do not. */
  predicate Ends(p: Phase) {
    match p
    case Check(c) => !c.FindDone? && !c.FindJournal?
    case WithSong(g) => !g.FindSong? && !g.Move? && !((g.Sync? || g.Insert?) && g.moved)
    case Stage(_) => true
    case Late(_) => true
    case End(n) => n.SyncDone?
    case _ => false
  }

  /** What the call then returns: a code of its own, or that of the effect. */
  function Reported(p: Phase, code: int): int {
    if p == Check(CloseApps) then -1001
    else if p.Check? || p.End? || (p.Late? && (p.late.SyncCommit? || p.late.WriteResult? || p.late.RenameDone?)) then -1003
    else if p == Late(Verify) then -1008
    else if p.WithSong? && p.song.Insert? then -1
    else code
  }

  /** After the failure the call returns, at once or behind the failure receipt, whether that could be written or not. */
  ghost predicate ReportsNext(s: State, status: int) {
    || (s.phase.Idle? && s.result == status)
    || (s.phase.WriteFailure? && forall e :: e == Step || e.StepFails? || e == PartialReceipt ==>
                                               Next(s, e).phase.Idle? && Next(s, e).result == status)
  }

  lemma {:induction false} ReceiptThenReturn(s: State, status: int)
    requires s.phase == WriteFailure(status)
    ensures ReportsNext(s, status)
  {
    hide SucceedCheck, SucceedSong, SucceedStage, SucceedLate, SucceedEnd, FailCheck, FailSong, FailLate, FailEnd;
  }

  lemma {:induction false} SongFails(s: State, code: int)
    requires code < 0 && Ends(s.phase) && s.phase.WithSong?
    ensures FailWith(s, code).phase == WriteFailure(Reported(s.phase, code))
  {
    hide FailCheck, FailLate, FailEnd;
  }

  lemma {:induction false} OtherFails(s: State, code: int)
    requires code < 0 && Ends(s.phase) && !s.phase.WithSong?
    ensures var r := FailWith(s, code);
            r.phase == WriteFailure(Reported(s.phase, code)) || (r.phase.Idle? && r.result == Reported(s.phase, code))
  {
    hide FailSong;
  }

  /** Every failure that ends a call is reported with its own code. */
  lemma {:induction false} FailureIsReported(s: State, code: int)
    requires code < 0 && Ends(s.phase)
    ensures ReportsNext(Next(s, StepFails(code)), Reported(s.phase, code))
  {
    hide ReportsNext, Succeed, WriteJournal, FailWith, Ends, Reported;
    if s.phase.WithSong? { SongFails(s, code); } else { OtherFails(s, code); }
    var r := Next(s, StepFails(code));
    if r.phase.WriteFailure? {
      ReceiptThenReturn(r, Reported(s.phase, code));
    } else {
      ReturnedAtOnce(r, Reported(s.phase, code));
    }
  }

  lemma {:induction false} ReturnedAtOnce(s: State, status: int)
    requires s.phase.Idle? && s.result == status
    ensures ReportsNext(s, status)
  {
    hide Next;
  }
}
