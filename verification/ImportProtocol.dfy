/**
  `vcm_sync_import` (src/vita/sync_import.c) for one item id, as a sequence of file-system effects
  that a power loss or a killed process may cut anywhere; for an mp3 with `vcm_music_sync_mp3`
  (src/vita/media_database.c) in place of the vendor export.

  The vendor export and the music database insert are not idempotent: a second start would import
  the file twice. Assumed of the platform: a rename is atomic and refuses an existing target,
  truncating an existing file does not remove it, a successful sync makes everything before it
  durable, and a power loss leaves some earlier state since then. An existence check may fail like
  every other call, and the source then takes the file to be absent. The id is uploaded once.
 */
module ImportProtocol {

  /** An mp3 is inserted into the music database, everything else goes to a vendor exporter. */
  datatype Kind = Mp3 | Vendor

  /** The song file in the music folder. */
  datatype Song = NoSong | PartSong | WholeSong

  /**
    `journal` and `done` are `<id>.importing` and `<id>.done`; `directory` is the item's staging
    directory; `inbox` and `staged` say where the upload is.
   */
  datatype Files = Files(journal: bool, done: bool, directory: bool, inbox: bool, staged: bool, song: Song)

  const UPLOADED := Files(false, false, false, true, false, NoSong)

  predicate HasReceipt(f: Files) { f.journal || f.done }

  /** `survivors` holds what a power loss may leave. */
  datatype Disk = Disk(files: Files, survivors: set<Files>)

  datatype CheckStep = FindDone | FindJournal | CloseApps | WriteStart | SyncStart

  /** The insert of an mp3; `moved` says that the upload was moved, not copied. */
  datatype SongStep = Mount | FindSong | FindSource | Move | Copy | Sync(moved: bool) | Insert(moved: bool) | Restore

  datatype StageStep = MakeDirectory | MoveSource | WriteExporting | LoadExporter

  /** From the export on. */
  datatype LateStep = Export | Verify | MoveSidecar | MoveToFolder | SyncCommit | WriteResult | RenameDone

  datatype EndStep = SyncDone | RemoveSource | RemoveDirectory

  datatype Phase =
    | Idle
    | Check(check: CheckStep)
    | WithSong(song: SongStep)
    | Stage(stage: StageStep)
    | Late(late: LateStep)
    | WriteFailure(status: int)
    | End(end: EndStep)

  /**
    `started` counts export and insert starts over the whole history. `misses` counts the checks of a
    receipt, `songMisses` those of the song, that failed on a file that was there; `restores` the songs
    moved back after a failed insert; `losses` the power losses that undid something. `blind` says
    whether the current call missed a receipt and `exported` whether it made a start; `unsynced` that the
    done receipt may not survive yet; `removed` that the upload was deleted; `result` is the last return.
   */
  datatype State = State(
    kind: Kind, disk: Disk, phase: Phase, started: nat, misses: nat, songMisses: nat, restores: nat, losses: nat,
    blind: bool, exported: bool, unsynced: bool, removed: bool, result: int)

  datatype Event =
    | Call
    | Step                      // the effect of the phase succeeds
    | StepFails(code: int)      // it fails, with the platform's error code
    | PartialReceipt            // a receipt write that fails after creating the file
    | PartialCopy               // a song copy that fails after creating the file
    | ExportConsumes            // the exporter succeeds and takes the staged file away
    | OtherSync                 // a sync issued for another item or by the upload path
    | Killed
    | PowerLoss(left: Files)

  function Initial(kind: Kind): State {
    State(kind, Disk(UPLOADED, {UPLOADED}), Idle, 0, 0, 0, 0, 0, false, false, false, false, -1)
  }

  /** An effect on the files, not yet durable. */
  function Put(s: State, f: Files): State { s.(disk := Disk(f, s.disk.survivors + {f})) }

  function Synced(s: State): State { s.(disk := Disk(s.disk.files, {s.disk.files}), unsynced := false) }

  /** `receipt` on the journal creates it, unless the journal already exists. */
  function WriteJournal(s: State): State { Put(s, s.disk.files.(journal := true)) }

  function Return(s: State, result: int): State { s.(phase := Idle, result := result) }

  function Fail(s: State, status: int): State { s.(phase := WriteFailure(status)) }

  function Start(s: State, phase: Phase): State { s.(phase := phase, started := s.started + 1, exported := true) }

  /** The check of a receipt fails, whether it is there or not. */
  function Missed(s: State, there: bool, next: Phase): State {
    if there then s.(misses := s.misses + 1, blind := true, phase := next) else s.(phase := next)
  }

  /** Platform failures are negative codes. */
  function Code(code: int): int { if code < 0 then code else -1 }

  function Succeed(s: State): State {
    match s.phase
    case Idle => s
    case Check(c) => SucceedCheck(s, c)
    case WithSong(g) => SucceedSong(s, g)
    case Stage(t) => SucceedStage(s, t)
    case Late(l) => SucceedLate(s, l)
    case WriteFailure(status) => Return(WriteJournal(s), status)
    case End(n) => SucceedEnd(s, n)
  }

  function SucceedCheck(s: State, c: CheckStep): State {
    var f := s.disk.files;
    match c
    case FindDone => if f.done then Return(s, 0) else s.(phase := Check(FindJournal))
    case FindJournal => if f.journal then Return(s, -1002) else s.(phase := Check(CloseApps))
    case CloseApps => s.(phase := Check(WriteStart))
    case WriteStart => WriteJournal(s).(phase := Check(SyncStart))
    case SyncStart => Synced(s).(phase := if s.kind.Mp3? then WithSong(Mount) else Stage(MakeDirectory))
  }

  /** Only without a song in the music folder, and with the upload still there. */
  function SucceedSong(s: State, g: SongStep): State {
    var f := s.disk.files;
    match g
    case Mount => s.(phase := WithSong(FindSong))
    case FindSong => if f.song.NoSong? then s.(phase := WithSong(FindSource)) else Fail(s, -1)
    case FindSource => if f.inbox then s.(phase := WithSong(Move)) else Fail(s, -1)
    case Move =>
      if f.song.NoSong? then Put(s, f.(inbox := false, song := WholeSong)).(phase := WithSong(Sync(true)))
      else s.(phase := WithSong(Copy))
    case Copy =>
      // A song of the right size is taken over, one of another size refused.
      if f.song.PartSong? then Fail(s, -1) else Put(s, f.(song := WholeSong)).(phase := WithSong(Sync(false)))
    case Sync(moved) => Start(Synced(s), WithSong(Insert(moved)))
    case Insert(_) => s.(phase := Late(Verify))
    case Restore => Fail(Put(s, f.(inbox := true, song := NoSong)).(restores := s.restores + 1), -1)
  }

  /** `stage_named` and what precedes the exporter: only into a new directory, and from the inbox. */
  function SucceedStage(s: State, t: StageStep): State {
    var f := s.disk.files;
    match t
    case MakeDirectory => if f.directory then Fail(s, -1) else Put(s, f.(directory := true)).(phase := Stage(MoveSource))
    case MoveSource =>
      if f.inbox && !f.staged then Put(s, f.(inbox := false, staged := true)).(phase := Stage(WriteExporting))
      else Fail(s, -1)
    case WriteExporting => WriteJournal(s).(phase := Stage(LoadExporter))
    case LoadExporter => Start(s, Late(Export))
  }

  function SucceedLate(s: State, l: LateStep): State {
    match l
    case Export => s.(phase := Late(Verify))
    case Verify => s.(phase := Late(MoveSidecar))
    case MoveSidecar => s.(phase := Late(MoveToFolder))
    case MoveToFolder => s.(phase := Late(SyncCommit))
    case SyncCommit => Synced(s).(phase := Late(WriteResult))
    case WriteResult => WriteJournal(s).(phase := Late(RenameDone))
    case RenameDone => Renamed(s).(phase := End(SyncDone))
  }

  /** The journal becomes the done receipt. */
  function Renamed(s: State): State {
    Put(s, s.disk.files.(journal := false, done := true)).(unsynced := s.unsynced || !s.disk.files.done)
  }

  function SucceedEnd(s: State, n: EndStep): State {
    var f := s.disk.files;
    match n
    case SyncDone => Synced(s).(phase := End(RemoveSource))
    case RemoveSource =>
      Put(s, if s.kind.Mp3? then f.(inbox := false) else f.(staged := false)).(removed := true, phase := End(RemoveDirectory))
    case RemoveDirectory => Return(if f.staged then s else Put(s, f.(directory := false)), 0)
  }

  function FailWith(s: State, code: int): State {
    match s.phase
    case Idle => s
    case Check(c) => FailCheck(s, c)
    case WithSong(g) => FailSong(s, g, code)
    case Stage(_) => Fail(s, Code(code))
    case Late(l) => FailLate(s, l, code)
    case WriteFailure(status) => Return(s, status)
    case End(n) => FailEnd(s, n)
  }

  /** A failed existence check reads as absence. */
  function FailCheck(s: State, c: CheckStep): State {
    match c
    case FindDone => Missed(s, s.disk.files.done, Check(FindJournal))
    case FindJournal => Missed(s, s.disk.files.journal, Check(CloseApps))
    case CloseApps => Return(s, -1001)
    case WriteStart => Return(s, -1003)
    case SyncStart => Return(s, -1003)
  }

  function FailSong(s: State, g: SongStep, code: int): State {
    match g
    case FindSong =>
      s.(phase := WithSong(FindSource), songMisses := if s.disk.files.song.NoSong? then s.songMisses else s.songMisses + 1)
    case Move => s.(phase := WithSong(Copy))
    case Sync(moved) => if moved then s.(phase := WithSong(Restore)) else Fail(s, Code(code))
    case Insert(moved) => if moved then s.(phase := WithSong(Restore)) else Fail(s, -1)
    case _ => Fail(s, Code(code))
  }

  function FailLate(s: State, l: LateStep, code: int): State {
    match l
    case Export => Fail(s, Code(code))
    case Verify => Fail(s, -1008)
    case MoveSidecar => Fail(s, Code(code))
    case MoveToFolder => Fail(s, Code(code))
    case _ => Return(s, -1003)
  }

  /** The final removals ignore their result. */
  function FailEnd(s: State, n: EndStep): State {
    match n
    case SyncDone => Return(s, -1003)
    case RemoveSource => s.(phase := End(RemoveDirectory))
    case RemoveDirectory => Return(s, 0)
  }

  predicate WritesReceipt(p: Phase) {
    p.WriteFailure? || p == Check(WriteStart) || p == Stage(WriteExporting) || p == Late(WriteResult)
  }

  function Next(s: State, e: Event): State {
    match e
    case Call => if s.phase.Idle? then s.(phase := Check(FindDone), exported := false, blind := false) else s
    case Step => Succeed(s)
    case StepFails(code) => FailWith(s, code)
    case PartialReceipt => if WritesReceipt(s.phase) then FailWith(WriteJournal(s), -1) else s
    case PartialCopy =>
      if s.phase == WithSong(Copy) && s.disk.files.song.NoSong? then Fail(Put(s, s.disk.files.(song := PartSong)), -1) else s
    case ExportConsumes =>
      if s.phase == Late(Export) then Put(s, s.disk.files.(staged := false)).(phase := Late(Verify)) else s
    case OtherSync => Synced(s)
    case Killed => s.(phase := Idle)
    case PowerLoss(left) =>
      if left !in s.disk.survivors then s
      else s.(disk := Disk(left, {left}), unsynced := false, phase := Idle,
              losses := if left == s.disk.files then s.losses else s.losses + 1)
  }

  function Run(s: State, events: seq<Event>): State {
    if events == [] then s
    else Next(Run(s, events[..|events| - 1]), events[|events| - 1])
  }

  // ---- the receipts ----

  ghost predicate AllHaveReceipts(d: Disk) { forall f :: f in d.survivors ==> HasReceipt(f) }

  ghost predicate AllHaveJournal(d: Disk) { forall f :: f in d.survivors ==> f.journal }

  ghost predicate AllDone(d: Disk) { forall f :: f in d.survivors ==> f.done }

  ghost predicate NoneDone(d: Disk) { forall f :: f in d.survivors ==> !f.done }

  /** What a power loss may leave agrees with the disk. */
  ghost predicate DiskSound(s: State) {
    && s.disk.files in s.disk.survivors
    && (s.started > 0 ==> AllHaveReceipts(s.disk))
    && (!s.disk.files.done ==> !s.unsynced && NoneDone(s.disk))
    && (s.disk.files.done ==> s.started > 0 && (s.unsynced <==> !AllDone(s.disk)))
  }

  /** The done receipt survives every power loss. */
  ghost predicate Committed(s: State) { s.disk.files.done && AllDone(s.disk) }

  /** The call has not begun an export, and may begin a second one only if it missed a receipt. */
  predicate Fresh(s: State) { !s.exported && (s.started > 0 ==> s.blind && s.started <= s.misses) }

  /** The call has begun an export. */
  predicate Begun(s: State) { s.exported && s.started > 0 }

  predicate CheckSound(s: State, c: CheckStep) {
    match c
    case FindDone => !s.blind && !s.exported
    case FindJournal => !s.exported && if s.blind then s.started <= s.misses else !s.disk.files.done
    case SyncStart => Fresh(s) && s.disk.files.journal
    case _ => Fresh(s) && (!s.blind ==> !HasReceipt(s.disk.files))
  }

  ghost predicate PhaseSound(s: State) {
    match s.phase
    case Idle => true
    case Check(c) => CheckSound(s, c)
    case WithSong(g) => AllHaveJournal(s.disk) && (g.Restore? || if g.Insert? then Begun(s) else Fresh(s))
    case Stage(_) => AllHaveJournal(s.disk) && Fresh(s)
    case Late(_) => AllHaveJournal(s.disk) && Begun(s)
    case WriteFailure(status) => AllHaveJournal(s.disk) && status < 0
    case End(n) => Begun(s) && if n.SyncDone? then s.disk.files.done else Committed(s)
  }

  ghost predicate Invariant(s: State) {
    && DiskSound(s) && PhaseSound(s)
    && s.started <= 1 + s.misses && (s.blind ==> s.misses > 0) && (s.removed ==> Committed(s))
  }

  // ---- effects on the disk ----

  lemma {:induction false} PutSound(s: State, f: Files)
    requires DiskSound(s) && f.done == s.disk.files.done && (s.disk.files.journal ==> f.journal)
    ensures DiskSound(Put(s, f))
    ensures AllHaveJournal(s.disk) && f.journal ==> AllHaveJournal(Put(s, f).disk)
    ensures Committed(s) ==> Committed(Put(s, f))
  {
  }

  lemma {:induction false} SyncedSound(s: State)
    requires DiskSound(s)
    ensures DiskSound(Synced(s)) && (s.disk.files.journal ==> AllHaveJournal(Synced(s).disk))
    ensures s.disk.files.done ==> Committed(Synced(s))
    ensures AllHaveJournal(s.disk) ==> s.disk.files.journal
  {
  }

  lemma {:induction false} StartSound(s: State, p: Phase)
    requires DiskSound(s) && AllHaveJournal(s.disk)
    ensures DiskSound(Start(s, p))
  {
  }

  lemma {:induction false} RenameSound(s: State)
    requires DiskSound(s) && AllHaveJournal(s.disk) && s.started > 0
    ensures DiskSound(Renamed(s)) && (Committed(s) ==> Committed(Renamed(s)))
  {
  }

  lemma {:induction false} LossSound(s: State, left: Files)
    requires DiskSound(s) && left in s.disk.survivors
    ensures var r := s.(disk := Disk(left, {left}), unsynced := false); DiskSound(r) && (Committed(s) ==> Committed(r))
  {
  }

  /** Counters, phase and results do not matter to the disk. */
  lemma {:induction false} SameDisk(s: State, r: State)
    ensures s.disk == r.disk && s.started == r.started && s.unsynced == r.unsynced ==>
              (DiskSound(s) <==> DiskSound(r))
    ensures s.disk == r.disk ==> (Committed(s) <==> Committed(r))
  {
  }

  lemma {:induction false} StartedHasReceipt(s: State)
    requires DiskSound(s)
    ensures s.started > 0 ==> HasReceipt(s.disk.files)
  {
  }

  lemma {:induction false} CommittedStart(s: State, p: Phase)
    ensures Committed(s) <==> Committed(Start(s, p))
  {
  }

  lemma {:induction false} SyncedKeepsPhase(s: State)
    requires DiskSound(s)
    ensures AllHaveJournal(s.disk) ==> AllHaveJournal(Synced(s).disk)
    ensures Committed(s) ==> Committed(Synced(s))
  {
  }

  // ---- every step keeps the invariant ----

  lemma {:induction false} CheckKeeps(s: State, c: CheckStep)
    requires Invariant(s) && s.phase == Check(c)
    ensures Invariant(SucceedCheck(s, c)) && Invariant(FailCheck(s, c))
  {
    hide DiskSound, Committed, AllHaveJournal;
    var r := SucceedCheck(s, c);
    StartedHasReceipt(s);
    SameDisk(s, FailCheck(s, c));
    match c
    case WriteStart => PutSound(s, s.disk.files.(journal := true)); SameDisk(WriteJournal(s), r);
    case SyncStart => SyncedSound(s); SyncedKeepsPhase(s); SameDisk(Synced(s), r);
    case _ => SameDisk(s, r);
  }

  lemma {:induction false} SongKeeps(s: State, g: SongStep)
    requires Invariant(s) && s.phase == WithSong(g)
    ensures Invariant(SucceedSong(s, g))
  {
    hide DiskSound, Committed, AllHaveJournal;
    var f, r := s.disk.files, SucceedSong(s, g);
    SyncedSound(s);
    match g
    case Move => PutKeeps(s, f.(inbox := false, song := WholeSong), r); SameDisk(s, r);
    case Copy => PutKeeps(s, f.(song := WholeSong), r); SameDisk(s, r);
    case Restore => PutKeeps(s, f.(inbox := true, song := NoSong), r);
    case Sync(moved) =>
      SyncedKeepsPhase(s);
      StartSound(Synced(s), r.phase);
      CommittedStart(Synced(s), r.phase);
    case _ => SameDisk(s, r);
  }

  lemma {:induction false} PutKeeps(s: State, f: Files, r: State)
    requires DiskSound(s) && f.done == s.disk.files.done && (s.disk.files.journal ==> f.journal)
    ensures Put(s, f).disk == r.disk && s.started == r.started && s.unsynced == r.unsynced ==> DiskSound(r)
    ensures AllHaveJournal(s.disk) && f.journal && Put(s, f).disk == r.disk ==> AllHaveJournal(r.disk)
    ensures Put(s, f).disk == r.disk && Committed(s) ==> Committed(r)
  {
    hide DiskSound, AllHaveJournal, Committed;
    PutSound(s, f);
    SameDisk(Put(s, f), r);
  }

  lemma {:induction false} StageKeeps(s: State, t: StageStep)
    requires Invariant(s) && s.phase == Stage(t)
    ensures Invariant(SucceedStage(s, t))
  {
    hide DiskSound, Committed, AllHaveJournal;
    var f, r := s.disk.files, SucceedStage(s, t);
    SyncedSound(s);
    match t
    case MakeDirectory => PutKeeps(s, f.(directory := true), r); SameDisk(s, r);
    case MoveSource => PutKeeps(s, f.(inbox := false, staged := true), r); SameDisk(s, r);
    case WriteExporting => PutKeeps(s, f.(journal := true), r);
    case LoadExporter => StartSound(s, r.phase); CommittedStart(s, r.phase);
  }

  lemma {:induction false} LateKeeps(s: State, l: LateStep)
    requires Invariant(s) && s.phase == Late(l)
    ensures Invariant(SucceedLate(s, l))
  {
    hide DiskSound, Committed, AllHaveJournal;
    var r := SucceedLate(s, l);
    match l
    case SyncCommit => SyncedSound(s); SyncedKeepsPhase(s); SameDisk(Synced(s), r);
    case WriteResult => PutKeeps(s, s.disk.files.(journal := true), r);
    case RenameDone => RenameSound(s); SameDisk(Renamed(s), r);
    case _ => SameDisk(s, r);
  }

  lemma {:induction false} EndKeeps(s: State, n: EndStep)
    requires Invariant(s) && s.phase == End(n)
    ensures Invariant(SucceedEnd(s, n))
  {
    hide DiskSound, Committed;
    var f, r := s.disk.files, SucceedEnd(s, n);
    match n
    case SyncDone => SyncedSound(s); SameDisk(Synced(s), r);
    case RemoveSource => PutKeeps(s, if s.kind.Mp3? then f.(inbox := false) else f.(staged := false), r);
    case RemoveDirectory => PutKeeps(s, f.(directory := false), r); SameDisk(s, r);
  }

  lemma {:induction false} SuccessKeeps(s: State)
    requires Invariant(s)
    ensures Invariant(Succeed(s))
  {
    hide Invariant, SucceedCheck, SucceedSong, SucceedStage, SucceedLate, SucceedEnd, Return, WriteJournal;
    match s.phase
    case Idle =>
    case Check(c) => CheckKeeps(s, c);
    case WithSong(g) => SongKeeps(s, g);
    case Stage(t) => StageKeeps(s, t);
    case Late(l) => LateKeeps(s, l);
    case End(n) => EndKeeps(s, n);
    case WriteFailure(status) => ReturnKeeps(s, status);
  }

  lemma {:induction false} ReturnKeeps(s: State, status: int)
    requires Invariant(s)
    ensures Invariant(Return(s, status)) && Invariant(Return(WriteJournal(s), status))
  {
    hide DiskSound, Committed, AllHaveJournal;
    SameDisk(s, Return(s, status));
    PutKeeps(s, s.disk.files.(journal := true), Return(WriteJournal(s), status));
  }

  lemma {:induction false} SongFailureKeeps(s: State, g: SongStep, code: int)
    requires Invariant(s) && s.phase == WithSong(g)
    ensures Invariant(FailSong(s, g, code))
  {
    hide DiskSound, Committed, AllHaveJournal;
    SameDisk(s, FailSong(s, g, code));
  }

  lemma {:induction false} StageFailureKeeps(s: State, code: int)
    requires Invariant(s) && s.phase.Stage?
    ensures Invariant(Fail(s, Code(code)))
  {
    hide DiskSound, Committed, AllHaveJournal;
    SameDisk(s, Fail(s, Code(code)));
  }

  lemma {:induction false} LateFailureKeeps(s: State, l: LateStep, code: int)
    requires Invariant(s) && s.phase == Late(l)
    ensures Invariant(FailLate(s, l, code))
  {
    hide DiskSound, Committed, AllHaveJournal;
    SameDisk(s, FailLate(s, l, code));
  }

  lemma {:induction false} EndFailureKeeps(s: State, n: EndStep)
    requires Invariant(s) && s.phase == End(n)
    ensures Invariant(FailEnd(s, n))
  {
    hide DiskSound, Committed;
    SameDisk(s, FailEnd(s, n));
  }

  lemma {:induction false} FailureKeeps(s: State, code: int)
    requires Invariant(s)
    ensures Invariant(FailWith(s, code))
  {
    hide Invariant, FailCheck, FailSong, FailLate, FailEnd, Fail, Return;
    match s.phase
    case Idle =>
    case Check(c) => CheckKeeps(s, c);
    case WithSong(g) => SongFailureKeeps(s, g, code);
    case Stage(_) => StageFailureKeeps(s, code);
    case Late(l) => LateFailureKeeps(s, l, code);
    case End(n) => EndFailureKeeps(s, n);
    case WriteFailure(status) => ReturnKeeps(s, status);
  }

  /** A receipt write that fails leaves the journal there, which the failing call accepts. */
  lemma {:induction false} PartialKeeps(s: State)
    requires Invariant(s) && WritesReceipt(s.phase)
    ensures Invariant(FailWith(WriteJournal(s), -1))
  {
    hide DiskSound, Committed, AllHaveJournal;
    PutKeeps(s, s.disk.files.(journal := true), FailWith(WriteJournal(s), -1));
  }

  lemma {:induction false} PowerLossKeeps(s: State, left: Files)
    requires Invariant(s)
    ensures Invariant(Next(s, PowerLoss(left)))
  {
    hide DiskSound, Committed, AllHaveJournal, Succeed, FailWith;
    if left in s.disk.survivors {
      LossSound(s, left);
      SameDisk(s.(disk := Disk(left, {left}), unsynced := false), Next(s, PowerLoss(left)));
    }
  }

  lemma {:induction false} SyncKeeps(s: State)
    requires Invariant(s)
    ensures Invariant(Synced(s))
  {
    hide DiskSound, Committed, AllHaveJournal;
    SyncedSound(s);
    SyncedKeepsPhase(s);
  }

  lemma {:induction false} OthersKeep(s: State, e: Event)
    requires Invariant(s) && (e.Call? || e.Killed? || e.PartialCopy? || e.ExportConsumes?)
    ensures Invariant(Next(s, e))
  {
    hide DiskSound, Committed, AllHaveJournal, Succeed, FailWith;
    var f, r := s.disk.files, Next(s, e);
    SameDisk(s, r);
    SyncedSound(s);
    match e
    case PartialCopy => PutKeeps(s, f.(song := PartSong), r);
    case ExportConsumes => PutKeeps(s, f.(staged := false), r);
    case _ =>
  }

  lemma {:induction false} StepPreservesInvariant(s: State, e: Event)
    requires Invariant(s)
    ensures Invariant(Next(s, e))
  {
    hide Succeed, FailWith, Invariant, Synced;
    match e
    case Step => SuccessKeeps(s);
    case StepFails(code) => FailureKeeps(s, code);
    case PartialReceipt => if WritesReceipt(s.phase) { PartialKeeps(s); }
    case OtherSync => SyncKeeps(s);
    case PowerLoss(left) => PowerLossKeeps(s, left);
    case _ => OthersKeep(s, e);
  }

  lemma {:induction false} RunPreservesInvariant(s: State, events: seq<Event>)
    requires Invariant(s)
    ensures Invariant(Run(s, events))
  {
    hide Next, Invariant;
    if events != [] {
      RunPreservesInvariant(s, events[..|events| - 1]);
      StepPreservesInvariant(Run(s, events[..|events| - 1]), events[|events| - 1]);
    }
  }

  lemma {:induction false} Reachable(kind: Kind, events: seq<Event>)
    ensures Invariant(Run(Initial(kind), events)) && Run(Initial(kind), events).kind == kind
  {
    hide Run;
    RunPreservesInvariant(Initial(kind), events);
    RunKeepsKind(Initial(kind), events);
  }

  lemma {:induction false} KindStep(s: State, e: Event)
    ensures Next(s, e).kind == s.kind && Next(s, e).misses >= s.misses
  {
    SucceedsSame(s);
    FailsSame(s, if e.StepFails? then e.code else -1);
    FailsSame(WriteJournal(s), -1);
    hide Succeed, FailWith;
  }

  /** Nothing but the phase's own effect. */
  predicate Same(s: State, r: State, starts: nat) {
    r.kind == s.kind && r.misses >= s.misses && r.started == s.started + starts
  }

  predicate AtStart(p: Phase) { (p.WithSong? && p.song.Sync?) || p == Stage(LoadExporter) }

  lemma {:induction false} CheckSame(s: State, c: CheckStep)
    ensures Same(s, SucceedCheck(s, c), 0) && Same(s, FailCheck(s, c), 0)
  {
  }

  lemma {:induction false} SongSame(s: State, g: SongStep)
    ensures Same(s, SucceedSong(s, g), if g.Sync? then 1 else 0)
  {
  }

  lemma {:induction false} SongFailsSame(s: State, g: SongStep, code: int)
    ensures Same(s, FailSong(s, g, code), 0)
  {
  }

  lemma {:induction false} StageSame(s: State, t: StageStep)
    ensures Same(s, SucceedStage(s, t), if t.LoadExporter? then 1 else 0)
  {
  }

  lemma {:induction false} LateSame(s: State, l: LateStep, code: int)
    ensures Same(s, SucceedLate(s, l), 0) && Same(s, FailLate(s, l, code), 0)
  {
  }

  lemma {:induction false} EndSame(s: State, n: EndStep)
    ensures Same(s, SucceedEnd(s, n), 0) && Same(s, FailEnd(s, n), 0)
  {
  }

  lemma {:induction false} ReturnSame(s: State, status: int)
    ensures Same(s, Return(WriteJournal(s), status), 0) && Same(s, Return(s, status), 0) && Same(s, Fail(s, status), 0)
    ensures Same(s, s, 0)
  {
  }

  lemma {:induction false} SucceedsSame(s: State)
    ensures Same(s, Succeed(s), if AtStart(s.phase) then 1 else 0)
  {
    hide SucceedCheck, SucceedSong, SucceedStage, SucceedLate, SucceedEnd, Return, WriteJournal, Same;
    ReturnSame(s, if s.phase.WriteFailure? then s.phase.status else 0);
    match s.phase
    case Check(c) => CheckSame(s, c);
    case WithSong(g) => SongSame(s, g);
    case Stage(t) => StageSame(s, t);
    case Late(l) => LateSame(s, l, 0);
    case End(n) => EndSame(s, n);
    case _ =>
  }

  lemma {:induction false} FailsSame(s: State, code: int)
    ensures Same(s, FailWith(s, code), 0)
  {
    hide FailCheck, FailSong, FailLate, FailEnd, Return, Fail, Same;
    ReturnSame(s, if s.phase.WriteFailure? then s.phase.status else Code(code));
    match s.phase
    case Check(c) => CheckSame(s, c);
    case WithSong(g) => SongFailsSame(s, g, code);
    case Late(l) => LateSame(s, l, code);
    case End(n) => EndSame(s, n);
    case _ =>
  }

  lemma {:induction false} RunKeepsKind(s: State, events: seq<Event>)
    ensures Run(s, events).kind == s.kind
  {
    hide Next;
    if events != [] {
      RunKeepsKind(s, events[..|events| - 1]);
      KindStep(Run(s, events[..|events| - 1]), events[|events| - 1]);
    }
  }
}
